/** Reference counts of the files behind snapshots: who holds a file, and when it is closed. */
module RefCounts {
  import opened Basics

  /** A file's counter and how often its closer has run. */
  datatype Counter = Counter(refs: int, closes: nat)

  function Added(c: Counter): Counter {
    c.(refs := c.refs + 1)
  }

  function Dropped(c: Counter): Counter {
    Counter(c.refs - 1, if c.refs - 1 == 0 then c.closes + 1 else c.closes)
  }

  class CloseOnLastRefCounter {
    var refs: int
    var closes: nat

    ghost function Value(): Counter
      reads this
    {
      Counter(refs, closes)
    }

    constructor ()
      ensures Value() == Counter(1, 0)
    {
      refs, closes := 1, 0;
    }

    method AddRef()
      modifies this
      ensures Value() == Added(old(Value()))
    {
      refs := refs + 1;
    }

    method DecRef()
      modifies this
      ensures Value() == Dropped(old(Value()))
    {
      refs := refs - 1;
      if refs == 0 {
        closes := closes + 1;
      }
    }
  }

  // ---------------------------------------------------------------- snapshots and owners

  /** A snapshot's own count and the files of its segments. Segments kept only in memory
      have counters that do nothing and are not listed. */
  datatype Snap = Snap(refs: int, held: seq<nat>)

  datatype Stage = Sent | Abandoned | Applied

  /** The replacements a persister has handed to the introducer, in a map they share. */
  datatype InFlight = InFlight(entries: seq<nat>, stage: Stage)

  datatype State = State(
    counters: seq<Counter>,
    snaps: seq<Snap>,
    handles: seq<nat>,
    root: Option<nat>,
    transient: seq<nat>,
    persist: Option<InFlight>)

  function AddAll(counters: seq<Counter>, cs: seq<nat>): (r: seq<Counter>)
    requires forall c :: c in cs ==> c < |counters|
    ensures |r| == |counters|
  {
    if cs == [] then counters
    else
      var init, last := cs[..|cs| - 1], cs[|cs| - 1];
      assert last in cs && forall c :: c in init ==> c in cs;
      var before := AddAll(counters, init);
      before[last := Added(before[last])]
  }

  function DropAll(counters: seq<Counter>, cs: seq<nat>): (r: seq<Counter>)
    requires forall c :: c in cs ==> c < |counters|
    ensures |r| == |counters|
  {
    if cs == [] then counters
    else
      var init, last := cs[..|cs| - 1], cs[|cs| - 1];
      assert last in cs && forall c :: c in init ==> c in cs;
      var before := DropAll(counters, init);
      before[last := Dropped(before[last])]
  }

  // ---------------------------------------------------------------- releasing a snapshot

  function Values(all: seq<CloseOnLastRefCounter>): (r: seq<Counter>)
    reads all
    ensures |r| == |all| && forall i :: 0 <= i < |all| ==> r[i] == Counter(all[i].refs, all[i].closes)
  {
    seq(|all|, i requires 0 <= i < |all| reads all => Counter(all[i].refs, all[i].closes))
  }

  /** The counters of these files, among all. */
  ghost predicate CountersOf(files: seq<CloseOnLastRefCounter>, all: seq<CloseOnLastRefCounter>, held: seq<nat>) {
    && (forall i, j :: 0 <= i < j < |all| ==> all[i] != all[j])
    && |files| == |held| && forall i :: 0 <= i < |files| ==> held[i] < |all| && files[i] == all[held[i]]
  }

  lemma HeldBelow(files: seq<CloseOnLastRefCounter>, all: seq<CloseOnLastRefCounter>, held: seq<nat>, n: nat)
    requires CountersOf(files, all, held) && n <= |files|
    ensures n <= |held| && forall c :: c in held[..n] ==> c < |all|
  {
  }

  lemma OneFurther(held: seq<nat>, i: nat)
    requires i < |held|
    ensures held[..i + 1][..i] == held[..i] && held[..i + 1][i] == held[i]
  {
  }

  /** An introduction that keeps files counts each of them once more. */
  method KeepFiles(files: seq<CloseOnLastRefCounter>, ghost all: seq<CloseOnLastRefCounter>, ghost held: seq<nat>)
    requires CountersOf(files, all, held)
    modifies all
    ensures forall c :: 0 <= c < |all| ==> all[c].refs == old(all[c].refs) + multiset(held)[c]
    ensures forall c :: 0 <= c < |all| ==> all[c].closes == old(all[c].closes)
  {
    hide CountersOf, AddAll;
    ghost var before := Values(all);
    AllHeld(files, all, held);
    AddNone(before);
    for i := 0 to |files|
      invariant (forall c :: c in held[..i] ==> c < |before|) && Values(all) == AddAll(before, held[..i])
    {
      HeldBelow(files, all, held, i + 1);
      OneFurther(held, i);
      AddStep(before, held[..i + 1]);
      CounterAt(files, all, held, i);
      files[i].AddRef();
      assert Values(all) == AddAll(before, held[..i])[held[i] := Added(AddAll(before, held[..i])[held[i]])];
    }
    assert held[..|held|] == held;
    forall c | 0 <= c < |all| ensures Values(all)[c] == Counter(before[c].refs + multiset(held)[c], before[c].closes) {
      AddAllFacts(before, held, c);
    }
  }

  class Snapshot {
    var refs: int
    const files: seq<CloseOnLastRefCounter>

    constructor (files: seq<CloseOnLastRefCounter>, refs: int)
      ensures this.files == files && this.refs == refs
    {
      this.files, this.refs := files, refs;
    }

    /** Dropping the last reference drops one reference of a file for each place it has
        here, and closes exactly the files that had no other. */
    method DecRef(ghost all: seq<CloseOnLastRefCounter>, ghost held: seq<nat>)
      requires CountersOf(files, all, held) && forall c :: 0 <= c < |all| ==> multiset(held)[c] <= all[c].refs
      modifies `refs, all
      ensures refs == old(refs) - 1
      ensures forall c :: 0 <= c < |all| ==>
        && all[c].refs == old(all[c].refs) - (if refs == 0 then multiset(held)[c] else 0)
        && (all[c].closes == old(all[c].closes) + 1 <==> refs == 0 && c in held && old(all[c].refs) == multiset(held)[c])
        && (all[c].closes == old(all[c].closes) || all[c].closes == old(all[c].closes) + 1)
    {
      hide CountersOf, DropAll;
      ghost var before := Values(all);
      AllHeld(files, all, held);
      refs := refs - 1;
      if refs == 0 {
        DropNone(before);
        for i := 0 to |files|
          invariant refs == 0 && (forall c :: c in held[..i] ==> c < |before|) && Values(all) == DropAll(before, held[..i])
        {
          HeldBelow(files, all, held, i + 1);
          OneFurther(held, i);
          DropStep(before, held[..i + 1]);
          CounterAt(files, all, held, i);
          files[i].DecRef();
          assert Values(all) == DropAll(before, held[..i])[held[i] := Dropped(DropAll(before, held[..i])[held[i]])];
        }
        assert held[..|held|] == held;
        forall c | 0 <= c < |all|
          ensures Values(all)[c] == Counter(before[c].refs - multiset(held)[c],
            if c in held && before[c].refs == multiset(held)[c] then before[c].closes + 1 else before[c].closes)
        {
          DropAllFacts(before, held, c);
          assert c in held <==> c in multiset(held);
        }
      }
    }
  }

  lemma AllHeld(files: seq<CloseOnLastRefCounter>, all: seq<CloseOnLastRefCounter>, held: seq<nat>)
    requires CountersOf(files, all, held)
    ensures |files| == |held| && forall c :: c in held ==> c < |all|
  {
  }

  lemma CounterAt(files: seq<CloseOnLastRefCounter>, all: seq<CloseOnLastRefCounter>, held: seq<nat>, i: nat)
    requires CountersOf(files, all, held) && i < |files|
    ensures i < |held| && held[i] < |all| && files[i] == all[held[i]]
    ensures forall j :: 0 <= j < |all| && j != held[i] ==> all[j] != files[i]
  {
    forall j | 0 <= j < |all| && j != held[i] ensures all[j] != files[i] {
      if j < held[i] { assert all[j] != all[held[i]]; } else { assert all[held[i]] != all[j]; }
    }
  }

  lemma AddNone(counters: seq<Counter>)
    ensures AddAll(counters, []) == counters
  {
  }

  lemma DropNone(counters: seq<Counter>)
    ensures DropAll(counters, []) == counters
  {
  }

  lemma AddStep(counters: seq<Counter>, cs: seq<nat>)
    requires cs != [] && forall c :: c in cs ==> c < |counters|
    ensures
      var init, last := cs[..|cs| - 1], cs[|cs| - 1];
      && last in cs && (forall c :: c in init ==> c in cs)
      && AddAll(counters, cs) == AddAll(counters, init)[last := Added(AddAll(counters, init)[last])]
  {
  }

  lemma DropStep(counters: seq<Counter>, cs: seq<nat>)
    requires cs != [] && forall c :: c in cs ==> c < |counters|
    ensures
      var init, last := cs[..|cs| - 1], cs[|cs| - 1];
      && last in cs && (forall c :: c in init ==> c in cs)
      && DropAll(counters, cs) == DropAll(counters, init)[last := Dropped(DropAll(counters, init)[last])]
  {
  }

  // ---------------------------------------------------------------- steps

  datatype Event =
    | LoadFile
    | DropFile(c: nat)
    | OpenRoot
    | CloseHandle(snap: nat)
    | LoadRoot(held: seq<nat>)
    | IntroduceSegment(keep: seq<nat>)
    | IntroduceMerge(keep: seq<nat>, merged: Option<nat>)
    | SendPersist(entries: seq<nat>)
    | ApplyPersist(keep: seq<nat>, taken: seq<nat>)
    | AbandonPersist
    | CleanPersist
    | ReleaseRoot

  ghost predicate Part(part: seq<nat>, all: seq<nat>) {
    multiset(part) <= multiset(all)
  }

  function Less(all: seq<nat>, part: seq<nat>): seq<nat> {
    if part == [] then all else Remove(Less(all, part[..|part| - 1]), part[|part| - 1])
  }

  function Remove(all: seq<nat>, c: nat): seq<nat> {
    if all == [] then []
    else if all[|all| - 1] == c then all[..|all| - 1]
    else Remove(all[..|all| - 1], c) + [all[|all| - 1]]
  }

  ghost predicate WellFormed(s: State) {
    && |s.handles| == |s.snaps| && (s.root.Some? ==> s.root.value < |s.snaps|)
    && (forall i, c :: 0 <= i < |s.snaps| && c in s.snaps[i].held ==> c < |s.counters|)
    && (forall c :: c in s.transient ==> c < |s.counters|)
    && (s.persist.Some? ==> forall c :: c in s.persist.value.entries ==> c < |s.counters|)
  }

  ghost predicate Enabled(s: State, e: Event)
    requires WellFormed(s)
  {
    match e
    case LoadFile => true
    case DropFile(c) => c in s.transient
    case OpenRoot => s.root.Some?
    case CloseHandle(i) => i < |s.snaps| && s.handles[i] > 0
    case LoadRoot(held) => Part(held, s.transient)
    case IntroduceSegment(keep) => s.root.Some? && Part(keep, s.snaps[s.root.value].held)
    case IntroduceMerge(keep, merged) =>
      s.root.Some? && Part(keep, s.snaps[s.root.value].held) && (merged.Some? ==> merged.value in s.transient)
    case SendPersist(entries) => s.persist.None? && Part(entries, s.transient)
    case ApplyPersist(keep, taken) =>
      && s.persist.Some? && s.persist.value.stage != Applied && Part(taken, s.persist.value.entries)
      && s.root.Some? && Part(keep, s.snaps[s.root.value].held)
    case AbandonPersist => s.persist.Some? && s.persist.value.stage == Sent
    case CleanPersist => s.persist.Some? && s.persist.value.stage == Applied
    case ReleaseRoot => s.root.Some?
  }

  /** Dropping one reference of a snapshot; the last one drops its files. */
  function Release(s: State, i: nat): (t: State)
    requires i < |s.snaps| && forall c :: c in s.snaps[i].held ==> c < |s.counters|
    ensures |t.counters| == |s.counters|
  {
    var snap := s.snaps[i];
    s.(snaps := s.snaps[i := snap.(refs := snap.refs - 1)],
       counters := if snap.refs - 1 == 0 then DropAll(s.counters, snap.held) else s.counters)
  }

  /** Installing a new root and then releasing the one before. */
  function Replace(s: State, snap: Snap, handles: nat): State
    requires s.root.Some? ==> s.root.value < |s.snaps| && forall c :: c in s.snaps[s.root.value].held ==> c < |s.counters|
  {
    var t := Installed(s, snap, handles);
    if s.root.Some? then Release(t, s.root.value) else t
  }

  lemma PartBound(s: State, part: seq<nat>, all: seq<nat>, bound: nat)
    requires Part(part, all) && forall c :: c in all ==> c < bound
    ensures forall c :: c in part ==> c < bound
  {
    forall c | c in part ensures c < bound { assert c in multiset(part) && c in multiset(all) && c in all; }
  }

  ghost function Next(s: State, e: Event): State
    requires WellFormed(s) && Enabled(s, e)
  {
    match e
    case LoadFile => s.(counters := s.counters + [Counter(1, 0)], transient := s.transient + [|s.counters|])
    case DropFile(c) => s.(counters := DropAll(s.counters, [c]), transient := Remove(s.transient, c))
    case OpenRoot =>
      var r := s.root.value;
      s.(snaps := s.snaps[r := s.snaps[r].(refs := s.snaps[r].refs + 1)], handles := s.handles[r := s.handles[r] + 1])
    case CloseHandle(i) => Release(s.(handles := s.handles[i := s.handles[i] - 1]), i)
    case LoadRoot(held) => Replace(s.(transient := Less(s.transient, held)), Snap(1, held), 0)
    case IntroduceSegment(keep) =>
      PartBound(s, keep, s.snaps[s.root.value].held, |s.counters|);
      Replace(s.(counters := AddAll(s.counters, keep)), Snap(1, keep), 0)
    case IntroduceMerge(keep, merged) =>
      PartBound(s, keep, s.snaps[s.root.value].held, |s.counters|);
      var t := s.(counters := AddAll(s.counters, keep));
      if merged.Some?
      then Replace(t.(transient := Remove(t.transient, merged.value)), Snap(2, keep + [merged.value]), 1)
      else Replace(t, Snap(2, keep), 1)
    case SendPersist(entries) => s.(transient := Less(s.transient, entries), persist := Some(InFlight(entries, Sent)))
    case ApplyPersist(keep, taken) =>
      PartBound(s, keep, s.snaps[s.root.value].held, |s.counters|);
      var p := s.persist.value;
      var t := Replace(s.(counters := AddAll(s.counters, keep)), Snap(1, keep + taken), 0);
      t.(persist := if p.stage == Abandoned then None else Some(InFlight(Less(p.entries, taken), Applied)))
    case AbandonPersist =>
      var p := s.persist.value;
      s.(counters := DropAll(s.counters, p.entries), persist := Some(InFlight(p.entries, Abandoned)))
    case CleanPersist => s.(counters := DropAll(s.counters, s.persist.value.entries), persist := None)
    case ReleaseRoot => Release(s, s.root.value).(root := None)
  }

  predicate Initial(s: State) {
    s == State([], [], [], None, [], None)
  }

  // ---------------------------------------------------------------- who holds a file

  function HeldBySnaps(snaps: seq<Snap>, c: nat): nat {
    if snaps == [] then 0
    else
      var last := snaps[|snaps| - 1];
      HeldBySnaps(snaps[..|snaps| - 1], c) + if last.refs > 0 then multiset(last.held)[c] else 0
  }

  /** The references to a file: one for each place in an open snapshot, and the owner that
      is about to hand it over or drop it. */
  function Owed(s: State, c: nat): nat {
    HeldBySnaps(s.snaps, c) + multiset(s.transient)[c] +
    if s.persist.Some? && s.persist.value.stage != Abandoned then multiset(s.persist.value.entries)[c] else 0
  }

  ghost predicate CounterOk(x: Counter, owed: nat) {
    x.refs == owed && x.closes == (if owed == 0 then 1 else 0)
  }

  ghost predicate Inv(s: State) {
    && WellFormed(s)
    && (forall i :: 0 <= i < |s.snaps| ==> s.snaps[i].refs == s.handles[i] + if s.root == Some(i) then 1 else 0)
    && (forall c :: 0 <= c < |s.counters| ==> CounterOk(s.counters[c], Owed(s, c)))
  }

  lemma {:induction false} DropAllFacts(counters: seq<Counter>, cs: seq<nat>, c: nat)
    requires c < |counters| && (forall x :: x in cs ==> x < |counters|) && multiset(cs)[c] <= counters[c].refs
    ensures
      var n, x := multiset(cs)[c], counters[c];
      DropAll(counters, cs)[c] == Counter(x.refs - n, if n > 0 && x.refs == n then x.closes + 1 else x.closes)
  {
    if cs != [] {
      var init, last := cs[..|cs| - 1], cs[|cs| - 1];
      assert cs == init + [last];
      assert last in cs && forall x :: x in init ==> x in cs;
      DropAllFacts(counters, init, c);
    }
  }

  lemma {:induction false} AddAllFacts(counters: seq<Counter>, cs: seq<nat>, c: nat)
    requires c < |counters| && forall x :: x in cs ==> x < |counters|
    ensures AddAll(counters, cs)[c] == Counter(counters[c].refs + multiset(cs)[c], counters[c].closes)
  {
    if cs != [] {
      var init, last := cs[..|cs| - 1], cs[|cs| - 1];
      assert cs == init + [last];
      assert last in cs && forall x :: x in init ==> x in cs;
      AddAllFacts(counters, init, c);
    }
  }

  lemma {:induction false} RemoveCount(all: seq<nat>, c: nat)
    ensures multiset(Remove(all, c)) == multiset(all) - multiset{c}
  {
    if all != [] {
      var init, last := all[..|all| - 1], all[|all| - 1];
      assert all == init + [last];
      if last != c { RemoveCount(init, c); }
    }
  }

  lemma {:induction false} LessCount(all: seq<nat>, part: seq<nat>)
    ensures multiset(Less(all, part)) == multiset(all) - multiset(part)
  {
    if part != [] {
      var init, last := part[..|part| - 1], part[|part| - 1];
      assert part == init + [last];
      LessCount(all, init);
      RemoveCount(Less(all, init), last);
    }
  }

  lemma HeldSnoc(snaps: seq<Snap>, snap: Snap, c: nat)
    ensures HeldBySnaps(snaps + [snap], c) == HeldBySnaps(snaps, c) + if snap.refs > 0 then multiset(snap.held)[c] else 0
  {
    assert (snaps + [snap])[..|snaps|] == snaps;
  }

  function Weight(snap: Snap, c: nat): nat {
    if snap.refs > 0 then multiset(snap.held)[c] else 0
  }

  lemma {:induction false} HeldUpdate(snaps: seq<Snap>, i: nat, snap: Snap, c: nat)
    requires i < |snaps|
    ensures HeldBySnaps(snaps[i := snap], c) + Weight(snaps[i], c) == HeldBySnaps(snaps, c) + Weight(snap, c)
  {
    var init, last := snaps[..|snaps| - 1], snaps[|snaps| - 1];
    if i == |snaps| - 1 {
      assert snaps[i := snap][..|snaps| - 1] == init;
    } else {
      HeldUpdate(init, i, snap, c);
      assert snaps[i := snap][..|snaps| - 1] == init[i := snap];
    }
  }

  lemma {:induction false} HeldAtLeast(snaps: seq<Snap>, i: nat, c: nat)
    requires i < |snaps|
    ensures HeldBySnaps(snaps, c) >= Weight(snaps[i], c)
  {
    if i < |snaps| - 1 { HeldAtLeast(snaps[..|snaps| - 1], i, c); }
  }

  // ---------------------------------------------------------------- what every step keeps

  ghost predicate CountersOk(s: State) {
    forall c :: 0 <= c < |s.counters| ==> CounterOk(s.counters[c], Owed(s, c))
  }

  ghost predicate RefsOk(s: State)
    requires |s.handles| == |s.snaps|
  {
    forall i :: 0 <= i < |s.snaps| ==> s.snaps[i].refs == s.handles[i] + if s.root == Some(i) then 1 else 0
  }

  /** Dropping a reference of a snapshot drops its files exactly when it was the last. */
  lemma ReleaseKeepsCounters(s: State, i: nat)
    requires WellFormed(s) && CountersOk(s) && i < |s.snaps| && s.snaps[i].refs > 0
    ensures CountersOk(Release(s, i)) && WellFormed(Release(s, i))
  {
    hide DropAll;
    var t, snap := Release(s, i), s.snaps[i];
    forall c | 0 <= c < |t.counters| ensures CounterOk(t.counters[c], Owed(t, c)) {
      HeldUpdate(s.snaps, i, t.snaps[i], c);
      HeldAtLeast(s.snaps, i, c);
      if snap.refs == 1 { DropAllFacts(s.counters, snap.held, c); }
    }
  }

  /** A new root is counted before the one it replaces is released. */
  lemma ReplaceKeeps(s: State, snap: Snap, handles: nat)
    requires WellFormed(s) && RefsOk(s) && snap.refs == handles + 1 && (forall c :: c in snap.held ==> c < |s.counters|)
    requires forall c :: 0 <= c < |s.counters| ==> CounterOk(s.counters[c], Owed(s, c) + multiset(snap.held)[c])
    ensures Inv(Replace(s, snap, handles))
  {
    hide Release, CounterOk, Owed;
    var t := Installed(s, snap, handles);
    InstallKeeps(s, snap, handles);
    if s.root.Some? {
      ReleaseKeepsCounters(t, s.root.value);
      ReleaseRefs(t, s.root.value);
    }
  }

  function Installed(s: State, snap: Snap, handles: nat): State {
    s.(snaps := s.snaps + [snap], handles := s.handles + [handles], root := Some(|s.snaps|))
  }

  lemma InstallKeeps(s: State, snap: Snap, handles: nat)
    requires WellFormed(s) && RefsOk(s) && snap.refs == handles + 1 && (forall c :: c in snap.held ==> c < |s.counters|)
    requires forall c :: 0 <= c < |s.counters| ==> CounterOk(s.counters[c], Owed(s, c) + multiset(snap.held)[c])
    ensures WellFormed(Installed(s, snap, handles)) && CountersOk(Installed(s, snap, handles))
  {
    hide CounterOk, HeldBySnaps;
    var t := Installed(s, snap, handles);
    forall c | 0 <= c < |t.counters| ensures CounterOk(t.counters[c], Owed(t, c)) {
      HeldSnoc(s.snaps, snap, c);
    }
  }

  lemma ReleaseRefs(s: State, i: nat)
    requires WellFormed(s) && i < |s.snaps|
    ensures
      var t := Release(s, i);
      && t.handles == s.handles && t.root == s.root && t.transient == s.transient && t.persist == s.persist
      && t.snaps == s.snaps[i := s.snaps[i].(refs := s.snaps[i].refs - 1)]
  {
  }

  /** Files kept from the root are held by it, so they are still open when counted again. */
  lemma KeepAdds(s: State, keep: seq<nat>)
    requires Inv(s) && s.root.Some? && Part(keep, s.snaps[s.root.value].held)
    ensures forall c :: c in keep ==> c < |s.counters|
    ensures forall c :: 0 <= c < |s.counters| ==>
      CounterOk(AddAll(s.counters, keep)[c], Owed(s, c) + multiset(keep)[c])
  {
    var r := s.root.value;
    PartBound(s, keep, s.snaps[r].held, |s.counters|);
    forall c | 0 <= c < |s.counters| ensures CounterOk(AddAll(s.counters, keep)[c], Owed(s, c) + multiset(keep)[c]) {
      AddAllFacts(s.counters, keep, c);
      HeldAtLeast(s.snaps, r, c);
      assert multiset(keep)[c] <= multiset(s.snaps[r].held)[c];
    }
  }

  lemma LessMembers(all: seq<nat>, part: seq<nat>)
    ensures forall c :: c in Less(all, part) ==> c in all
  {
    LessCount(all, part);
    forall c | c in Less(all, part) ensures c in all { assert c in multiset(Less(all, part)) && c in multiset(all); }
  }

  lemma RemoveMembers(all: seq<nat>, x: nat)
    ensures forall c :: c in Remove(all, x) ==> c in all
  {
    RemoveCount(all, x);
    forall c | c in Remove(all, x) ensures c in all { assert c in multiset(Remove(all, x)) && c in multiset(all); }
  }

  lemma LoadFileKeeps(s: State)
    requires Inv(s)
    ensures Inv(Next(s, LoadFile))
  {
    var t, n := Next(s, LoadFile), |s.counters|;
    forall c | 0 <= c < |t.counters| ensures CounterOk(t.counters[c], Owed(t, c)) {
      if c == n {
        NotHeld(s.snaps, n);
        assert n !in s.transient && n !in multiset(s.transient);
        if s.persist.Some? { assert n !in s.persist.value.entries && n !in multiset(s.persist.value.entries); }
      }
    }
  }

  lemma {:induction false} NotHeld(snaps: seq<Snap>, c: nat)
    requires forall i :: 0 <= i < |snaps| ==> c !in snaps[i].held
    ensures HeldBySnaps(snaps, c) == 0
  {
    if snaps != [] {
      NotHeld(snaps[..|snaps| - 1], c);
      assert c !in multiset(snaps[|snaps| - 1].held);
    }
  }

  lemma DropFileKeeps(s: State, x: nat)
    requires Inv(s) && x in s.transient
    ensures Inv(Next(s, DropFile(x)))
  {
    var t := Next(s, DropFile(x));
    RemoveCount(s.transient, x);
    RemoveMembers(s.transient, x);
    assert x in multiset(s.transient);
    forall c | 0 <= c < |t.counters| ensures CounterOk(t.counters[c], Owed(t, c)) {
      DropAllFacts(s.counters, [x], c);
    }
  }

  lemma HandleKeeps(s: State, e: Event)
    requires Inv(s) && Enabled(s, e) && (e.OpenRoot? || e.CloseHandle?)
    ensures Inv(Next(s, e))
  {
    hide DropAll;
    if e.OpenRoot? {
      var r, t := s.root.value, Next(s, e);
      forall c | 0 <= c < |t.counters| ensures CounterOk(t.counters[c], Owed(t, c)) {
        HeldUpdate(s.snaps, r, t.snaps[r], c);
      }
    } else {
      var u := s.(handles := s.handles[e.snap := s.handles[e.snap] - 1]);
      assert forall c :: Owed(u, c) == Owed(s, c);
      ReleaseKeepsCounters(u, e.snap);
      ReleaseRefs(u, e.snap);
    }
  }

  lemma ReleaseRootKeeps(s: State)
    requires Inv(s) && s.root.Some?
    ensures Inv(Next(s, ReleaseRoot))
  {
    hide DropAll, CounterOk;
    var t := Release(s, s.root.value);
    ReleaseKeepsCounters(s, s.root.value);
    ReleaseRefs(s, s.root.value);
    assert forall c :: Owed(t.(root := None), c) == Owed(t, c);
  }

  lemma LoadRootKeeps(s: State, held: seq<nat>)
    requires Inv(s) && Part(held, s.transient)
    ensures Inv(Next(s, LoadRoot(held)))
  {
    hide Less, CounterOk, Replace, HeldBySnaps;
    LessMembers(s.transient, held);
    PartBound(s, held, s.transient, |s.counters|);
    var u := s.(transient := Less(s.transient, held));
    forall c | 0 <= c < |s.counters| ensures Owed(u, c) + multiset(held)[c] == Owed(s, c) {
      SplitCount(s.transient, held, c);
    }
    ReplaceKeeps(u, Snap(1, held), 0);
  }

  lemma IntroduceSegmentKeeps(s: State, keep: seq<nat>)
    requires Inv(s) && Enabled(s, IntroduceSegment(keep))
    ensures Inv(Next(s, IntroduceSegment(keep)))
  {
    hide CounterOk;
    KeepAdds(s, keep);
    var u := s.(counters := AddAll(s.counters, keep));
    assert forall c :: Owed(u, c) == Owed(s, c);
    ReplaceKeeps(u, Snap(1, keep), 0);
  }

  lemma SplitCount(all: seq<nat>, part: seq<nat>, c: nat)
    requires Part(part, all)
    ensures multiset(Less(all, part))[c] + multiset(part)[c] == multiset(all)[c]
  {
    LessCount(all, part);
    assert multiset(part)[c] <= multiset(all)[c];
  }

  lemma OneCount(all: seq<nat>, keep: seq<nat>, m: nat, c: nat)
    requires m in all
    ensures multiset(Remove(all, m))[c] + multiset(keep + [m])[c] == multiset(all)[c] + multiset(keep)[c]
  {
    RemoveCount(all, m);
    assert m in multiset(all);
  }

  lemma MergedKeeps(s: State, u: State, keep: seq<nat>, m: nat)
    requires Inv(s) && m in s.transient && forall c :: c in keep ==> c < |s.counters|
    requires |u.counters| == |s.counters| && u == s.(counters := u.counters)
    requires forall c :: 0 <= c < |s.counters| ==> CounterOk(u.counters[c], Owed(s, c) + multiset(keep)[c])
    ensures Inv(Replace(u.(transient := Remove(u.transient, m)), Snap(2, keep + [m]), 1))
  {
    hide CounterOk, Replace, Remove;
    RemoveMembers(s.transient, m);
    var v := u.(transient := Remove(s.transient, m));
    forall c | 0 <= c < |v.counters| ensures Owed(v, c) + multiset(keep + [m])[c] == Owed(s, c) + multiset(keep)[c] {
      OneCount(s.transient, keep, m, c);
    }
    ReplaceKeeps(v, Snap(2, keep + [m]), 1);
  }

  lemma IntroduceMergeKeeps(s: State, keep: seq<nat>, merged: Option<nat>)
    requires Inv(s) && Enabled(s, IntroduceMerge(keep, merged))
    ensures Inv(Next(s, IntroduceMerge(keep, merged)))
  {
    hide CounterOk, Replace, Remove;
    KeepAdds(s, keep);
    var u := s.(counters := AddAll(s.counters, keep));
    assert forall c :: Owed(u, c) == Owed(s, c);
    if merged.Some? {
      MergedKeeps(s, u, keep, merged.value);
    } else {
      ReplaceKeeps(u, Snap(2, keep), 1);
    }
  }

  lemma SendPersistKeeps(s: State, entries: seq<nat>)
    requires Inv(s) && Enabled(s, SendPersist(entries))
    ensures Inv(Next(s, SendPersist(entries)))
  {
    hide CounterOk, Less;
    LessMembers(s.transient, entries);
    PartBound(s, entries, s.transient, |s.counters|);
    var t := Next(s, SendPersist(entries));
    forall c ensures Owed(t, c) == Owed(s, c) {
      SplitCount(s.transient, entries, c);
    }
  }

  lemma DropEntriesKeeps(s: State, e: Event)
    requires Inv(s) && Enabled(s, e) && (e.AbandonPersist? || e.CleanPersist?)
    ensures Inv(Next(s, e))
  {
    hide DropAll;
    var t := Next(s, e);
    forall c | 0 <= c < |t.counters| ensures CounterOk(t.counters[c], Owed(t, c)) {
      DropAllFacts(s.counters, s.persist.value.entries, c);
    }
  }

  /** Replacements taken from a map the persister has given up are no longer anybody's. */
  ghost predicate TakesAbandoned(s: State, e: Event) {
    e.ApplyPersist? && s.persist.Some? && s.persist.value.stage == Abandoned && e.taken != []
  }

  lemma ApplyPersistKeeps(s: State, keep: seq<nat>, taken: seq<nat>)
    requires Inv(s) && Enabled(s, ApplyPersist(keep, taken)) && !TakesAbandoned(s, ApplyPersist(keep, taken))
    ensures Inv(Next(s, ApplyPersist(keep, taken)))
  {
    hide CounterOk, Replace, HeldBySnaps, Less, Owed;
    var p := s.persist.value;
    KeepAdds(s, keep);
    LessMembers(p.entries, taken);
    PartBound(s, taken, p.entries, |s.counters|);
    var after := if p.stage == Abandoned then None else Some(InFlight(Less(p.entries, taken), Applied));
    var u := s.(counters := AddAll(s.counters, keep), persist := after);
    forall c | 0 <= c < |u.counters|
      ensures Owed(u, c) + multiset(keep + taken)[c] == Owed(s, c) + multiset(keep)[c]
    {
      TakenOwed(s, u, keep, taken, c);
    }
    ReplaceKeeps(u, Snap(1, keep + taken), 0);
    PersistAside(s.(counters := AddAll(s.counters, keep)), Snap(1, keep + taken), after);
  }

  lemma TakenOwed(s: State, u: State, keep: seq<nat>, taken: seq<nat>, c: nat)
    requires s.persist.Some? && Part(taken, s.persist.value.entries) && s.persist.value.stage != Applied
    requires s.persist.value.stage == Abandoned ==> taken == []
    requires u.snaps == s.snaps && u.transient == s.transient
    requires u.persist ==
      if s.persist.value.stage == Abandoned then None else Some(InFlight(Less(s.persist.value.entries, taken), Applied))
    ensures Owed(u, c) + multiset(keep + taken)[c] == Owed(s, c) + multiset(keep)[c]
  {
    hide HeldBySnaps, Less;
    SplitCount(s.persist.value.entries, taken, c);
    BothCounts(keep, taken, c);
  }

  lemma BothCounts(a: seq<nat>, b: seq<nat>, c: nat)
    ensures multiset(a + b)[c] == multiset(a)[c] + multiset(b)[c]
  {
  }

  lemma PersistAside(s: State, snap: Snap, after: Option<InFlight>)
    requires s.root.Some? && s.root.value < |s.snaps| && forall c :: c in s.snaps[s.root.value].held ==> c < |s.counters|
    ensures Replace(s.(persist := after), snap, 0) == Replace(s, snap, 0).(persist := after)
  {
  }

  /** Taking an abandoned replacement leaves a root that nobody counted. */
  lemma TakingAbandonedBreaks(s: State, keep: seq<nat>, taken: seq<nat>)
    requires Inv(s) && Enabled(s, ApplyPersist(keep, taken)) && TakesAbandoned(s, ApplyPersist(keep, taken))
    ensures !Inv(Next(s, ApplyPersist(keep, taken)))
  {
    hide CounterOk, DropAll, HeldBySnaps, Less, AddAll;
    var r, c := s.root.value, taken[0];
    PartBound(s, taken, s.persist.value.entries, |s.counters|);
    KeepAdds(s, keep);
    assert c in taken && c in multiset(taken);
    CounterMeans(AddAll(s.counters, keep)[c], Owed(s, c) + multiset(keep)[c]);
    var u := s.(counters := AddAll(s.counters, keep), persist := None);
    var snap := Snap(1, keep + taken);
    var v := u.(snaps := u.snaps + [snap], handles := u.handles + [0], root := Some(|u.snaps|));
    HeldSnoc(s.snaps, snap, c);
    BothCounts(keep, taken, c);
    ReleaseKeepsGap(v, r, c);
    PersistAside(s.(counters := AddAll(s.counters, keep)), snap, None);
    GapBreaks(Release(v, r), c);
  }

  /** A taken file that nobody else refers to is closed, and the new root contains it. */
  lemma TakenIsClosed(s: State, keep: seq<nat>, taken: seq<nat>, c: nat)
    requires Inv(s) && Enabled(s, ApplyPersist(keep, taken)) && TakesAbandoned(s, ApplyPersist(keep, taken))
    requires c in taken && Owed(s, c) == 0
    ensures
      var t := Next(s, ApplyPersist(keep, taken));
      && t.root.Some? && t.root.value < |t.snaps| && t.snaps[t.root.value].refs > 0 && c in t.snaps[t.root.value].held
      && c < |t.counters| && t.counters[c] == Counter(0, 1)
  {
    hide HeldBySnaps, Less, AddAll, DropAll;
    var r := s.root.value;
    PartBound(s, taken, s.persist.value.entries, |s.counters|);
    assert CounterOk(s.counters[c], Owed(s, c));
    HeldAtLeast(s.snaps, r, c);
    assert multiset(keep)[c] <= multiset(s.snaps[r].held)[c] == 0;
    PartBound(s, keep, s.snaps[r].held, |s.counters|);
    AddAllFacts(s.counters, keep, c);
    DropAllFacts(AddAll(s.counters, keep), s.snaps[r].held, c);
  }

  lemma GapBreaks(s: State, c: nat)
    requires c < |s.counters| && s.counters[c].refs < Owed(s, c)
    ensures !Inv(s)
  {
    assert Inv(s) ==> CounterOk(s.counters[c], Owed(s, c));
  }

  lemma CounterMeans(x: Counter, owed: nat)
    requires CounterOk(x, owed)
    ensures x.refs == owed
  {
  }

  lemma ReleaseKeepsGap(s: State, i: nat, c: nat)
    requires WellFormed(s) && i < |s.snaps| && c < |s.counters| && s.counters[c].refs < Owed(s, c) && s.snaps[i].refs > 0
    ensures Release(s, i).counters[c].refs < Owed(Release(s, i), c)
  {
    HeldUpdate(s.snaps, i, Release(s, i).snaps[i], c);
    if s.snaps[i].refs == 1 { DropAllRefs(s.counters, s.snaps[i].held, c); }
  }

  lemma {:induction false} DropAllRefs(counters: seq<Counter>, cs: seq<nat>, c: nat)
    requires c < |counters| && forall x :: x in cs ==> x < |counters|
    ensures DropAll(counters, cs)[c].refs == counters[c].refs - multiset(cs)[c]
  {
    if cs != [] {
      var init, last := cs[..|cs| - 1], cs[|cs| - 1];
      assert cs == init + [last];
      assert last in cs && forall x :: x in init ==> x in cs;
      DropAllRefs(counters, init, c);
    }
  }

  /** Every step keeps the counts exact, except the introduction of replacements from a
      map that the persister has already given up. */
  lemma StepKeepsInvExactly(s: State, e: Event)
    requires Inv(s) && Enabled(s, e)
    ensures Inv(Next(s, e)) <==> !TakesAbandoned(s, e)
  {
    hide Inv, Enabled, Next;
    match e
    case LoadFile => LoadFileKeeps(s);
    case DropFile(c) => DropFileIs(s, c); DropFileKeeps(s, c);
    case OpenRoot => HandleKeeps(s, e);
    case CloseHandle(_) => HandleKeeps(s, e);
    case LoadRoot(held) => LoadRootIs(s, held); LoadRootKeeps(s, held);
    case IntroduceSegment(keep) => IntroduceSegmentKeeps(s, keep);
    case IntroduceMerge(keep, merged) => IntroduceMergeKeeps(s, keep, merged);
    case SendPersist(entries) => SendPersistKeeps(s, entries);
    case ApplyPersist(keep, taken) =>
      if TakesAbandoned(s, e) { TakingAbandonedBreaks(s, keep, taken); } else { ApplyPersistKeeps(s, keep, taken); }
    case AbandonPersist => DropEntriesKeeps(s, e);
    case CleanPersist => DropEntriesKeeps(s, e);
    case ReleaseRoot => ReleaseRootIs(s); ReleaseRootKeeps(s);
  }

  lemma DropFileIs(s: State, c: nat)
    requires Inv(s) && Enabled(s, DropFile(c))
    ensures c in s.transient
  {
  }

  lemma LoadRootIs(s: State, held: seq<nat>)
    requires Inv(s) && Enabled(s, LoadRoot(held))
    ensures Part(held, s.transient)
  {
  }

  lemma ReleaseRootIs(s: State)
    requires Inv(s) && Enabled(s, ReleaseRoot)
    ensures s.root.Some?
  {
  }

  // ---------------------------------------------------------------- what every step does

  /** What the snapshots become: a new root, the one before with a reference less. */
  ghost predicate RootReplaced(s: State, t: State, held: seq<nat>, handles: nat) {
    && t.root == Some(|s.snaps|) && t.handles == s.handles + [handles] && |t.snaps| == |s.snaps| + 1
    && t.snaps[|s.snaps|] == Snap(handles + 1, held)
    && forall i :: 0 <= i < |s.snaps| ==>
         t.snaps[i] == if s.root == Some(i) then Snap(s.snaps[i].refs - 1, s.snaps[i].held) else s.snaps[i]
  }

  lemma ReplaceIs(s: State, snap: Snap, handles: nat)
    requires WellFormed(s) && snap.refs == handles + 1
    ensures RootReplaced(s, Replace(s, snap, handles), snap.held, handles)
    ensures
      var t := Replace(s, snap, handles);
      t.transient == s.transient && t.persist == s.persist && |t.counters| == |s.counters|
  {
    hide DropAll;
  }

  /** What an introduction puts into the root, and whose references it takes over. A merge
      gives its caller a reference of the new root too. */
  lemma IntroductionIs(s: State, e: Event)
    requires Inv(s) && Enabled(s, e) && (e.LoadRoot? || e.IntroduceSegment? || e.IntroduceMerge? || e.ApplyPersist?)
    ensures
      var t := Next(s, e);
      match e
      case LoadRoot(held) =>
        RootReplaced(s, t, held, 0) && t.persist == s.persist && multiset(t.transient) == multiset(s.transient) - multiset(held)
      case IntroduceSegment(keep) => RootReplaced(s, t, keep, 0) && t.persist == s.persist && t.transient == s.transient
      case IntroduceMerge(keep, Some(merged)) =>
        RootReplaced(s, t, keep + [merged], 1) && t.persist == s.persist && multiset(t.transient) == multiset(s.transient) - multiset{merged}
      case IntroduceMerge(keep, None) => RootReplaced(s, t, keep, 1) && t.persist == s.persist && t.transient == s.transient
      case ApplyPersist(keep, taken) =>
        && RootReplaced(s, t, keep + taken, 0) && t.transient == s.transient
        && if s.persist.value.stage == Abandoned then t.persist == None
           else t.persist.Some? && t.persist.value.stage == Applied
                && multiset(t.persist.value.entries) == multiset(s.persist.value.entries) - multiset(taken)
      case _ => false
  {
    hide Replace, RootReplaced, AddAll, Less, Remove, CounterOk, Owed;
    match e
    case LoadRoot(held) =>
      LessCount(s.transient, held);
      LessMembers(s.transient, held);
      ReplaceIs(s.(transient := Less(s.transient, held)), Snap(1, held), 0);
      ReplacedFrom(s, s.(transient := Less(s.transient, held)), Next(s, e), held, 0);
    case IntroduceSegment(keep) =>
      KeptFrom(s, s, keep, keep, 0);
    case IntroduceMerge(keep, Some(m)) =>
      RemoveCount(s.transient, m);
      RemoveMembers(s.transient, m);
      KeptFrom(s, s.(transient := Remove(s.transient, m)), keep, keep + [m], 1);
    case IntroduceMerge(keep, None) =>
      KeptFrom(s, s, keep, keep, 1);
    case ApplyPersist(keep, taken) =>
      LessCount(s.persist.value.entries, taken);
      KeptFrom(s, s, keep, keep + taken, 0);
      AsideReplaced(s, keep, keep + taken, Next(s, e).persist);
    case _ =>
  }

  lemma ReplacedFrom(s: State, u: State, t: State, held: seq<nat>, handles: nat)
    requires RootReplaced(u, t, held, handles) && u.snaps == s.snaps && u.handles == s.handles && u.root == s.root
    ensures RootReplaced(s, t, held, handles)
  {
  }

  lemma KeptFrom(s: State, u: State, keep: seq<nat>, held: seq<nat>, handles: nat)
    requires WellFormed(s) && WellFormed(u) && u == s.(transient := u.transient)
    requires s.root.Some? && Part(keep, s.snaps[s.root.value].held)
    ensures forall c :: c in keep ==> c < |s.counters|
    ensures
      var t := Replace(u.(counters := AddAll(s.counters, keep)), Snap(handles + 1, held), handles);
      RootReplaced(s, t, held, handles) && t.transient == u.transient && t.persist == s.persist
  {
    hide Replace, RootReplaced, AddAll;
    PartBound(s, keep, s.snaps[s.root.value].held, |s.counters|);
    var v := u.(counters := AddAll(s.counters, keep));
    ReplaceIs(v, Snap(handles + 1, held), handles);
    ReplacedFrom(s, v, Replace(v, Snap(handles + 1, held), handles), held, handles);
  }

  lemma AsideReplaced(s: State, keep: seq<nat>, held: seq<nat>, after: Option<InFlight>)
    requires WellFormed(s) && s.root.Some? && Part(keep, s.snaps[s.root.value].held)
    ensures forall c :: c in keep ==> c < |s.counters|
    ensures
      var t := Replace(s.(counters := AddAll(s.counters, keep)), Snap(1, held), 0);
      RootReplaced(s, t.(persist := after), held, 0)
  {
    hide Replace, AddAll;
    KeptFrom(s, s, keep, held, 0);
  }

  /** What opening and closing snapshots, and handing files on, does. */
  lemma OtherStepIs(s: State, e: Event)
    requires Inv(s) && Enabled(s, e) && !e.LoadRoot? && !e.IntroduceSegment? && !e.IntroduceMerge? && !e.ApplyPersist?
    ensures
      var t, r := Next(s, e), if s.root.Some? then s.root.value else 0;
      match e
      case LoadFile =>
        && t.counters == s.counters + [Counter(1, 0)] && t.transient == s.transient + [|s.counters|]
        && t.snaps == s.snaps && t.handles == s.handles && t.root == s.root && t.persist == s.persist
      case DropFile(c) =>
        && multiset(t.transient) == multiset(s.transient) - multiset{c}
        && t.snaps == s.snaps && t.handles == s.handles && t.root == s.root && t.persist == s.persist
      case OpenRoot =>
        && t == s.(snaps := t.snaps, handles := t.handles)
        && t.snaps == s.snaps[r := Snap(s.snaps[r].refs + 1, s.snaps[r].held)] && t.handles == s.handles[r := s.handles[r] + 1]
      case CloseHandle(i) =>
        && t.root == s.root && t.transient == s.transient && t.persist == s.persist
        && t.snaps == s.snaps[i := Snap(s.snaps[i].refs - 1, s.snaps[i].held)] && t.handles == s.handles[i := s.handles[i] - 1]
      case SendPersist(entries) =>
        && multiset(t.transient) == multiset(s.transient) - multiset(entries) && t.persist == Some(InFlight(entries, Sent))
        && t.snaps == s.snaps && t.handles == s.handles && t.root == s.root
      case AbandonPersist =>
        && t.persist == Some(InFlight(s.persist.value.entries, Abandoned)) && t.transient == s.transient
        && t.snaps == s.snaps && t.handles == s.handles && t.root == s.root
      case CleanPersist =>
        && t.persist == None && t.transient == s.transient
        && t.snaps == s.snaps && t.handles == s.handles && t.root == s.root
      case ReleaseRoot =>
        && t.root == None && t.transient == s.transient && t.persist == s.persist && t.handles == s.handles
        && t.snaps == s.snaps[r := Snap(s.snaps[r].refs - 1, s.snaps[r].held)]
      case _ => false
  {
    hide DropAll, Remove, Less, CounterOk, Owed;
    match e
    case DropFile(c) => RemoveCount(s.transient, c);
    case SendPersist(entries) => LessCount(s.transient, entries);
    case _ =>
  }

  // ---------------------------------------------------------------- runs

  ghost predicate IsRun(states: seq<State>, events: seq<Event>) {
    && |states| == |events| + 1 && Initial(states[0])
    && forall i :: 0 <= i < |events| ==> StepFrom(states[i], events[i], states[i + 1])
  }

  ghost predicate StepFrom(s: State, e: Event, t: State) {
    WellFormed(s) && Enabled(s, e) && t == Next(s, e)
  }

  /** In a run in which no abandoned replacement is introduced, counts are always exact. */
  lemma {:induction false} RunKeepsInv(states: seq<State>, events: seq<Event>, i: nat)
    requires IsRun(states, events) && i < |states|
    requires forall k :: 0 <= k < |events| ==> !TakesAbandoned(states[k], events[k])
    ensures Inv(states[i])
  {
    hide Enabled, Next, TakesAbandoned;
    if i > 0 {
      RunKeepsInv(states, events, i - 1);
      assert StepFrom(states[i - 1], events[i - 1], states[i]);
      StepKeepsInvExactly(states[i - 1], events[i - 1]);
    }
  }

  /** A file is closed at most once, exactly when nothing refers to it any more, and never
      while a snapshot that is still open has it. */
  lemma ClosedOnceAndLast(states: seq<State>, events: seq<Event>, i: nat, c: nat)
    requires IsRun(states, events) && i < |states| && c < |states[i].counters|
    requires forall k :: 0 <= k < |events| ==> !TakesAbandoned(states[k], events[k])
    ensures states[i].counters[c].closes <= 1
    ensures states[i].counters[c].closes == 1 <==> Owed(states[i], c) == 0
    ensures forall j :: 0 <= j < |states[i].snaps| && states[i].snaps[j].refs > 0 && c in states[i].snaps[j].held ==>
      states[i].counters[c].closes == 0
    ensures c in states[i].transient ==> states[i].counters[c].closes == 0
  {
    var s := states[i];
    RunKeepsInv(states, events, i);
    assert CounterOk(s.counters[c], Owed(s, c));
    forall j | 0 <= j < |s.snaps| && s.snaps[j].refs > 0 && c in s.snaps[j].held ensures s.counters[c].closes == 0 {
      HeldAtLeast(s.snaps, j, c);
      assert c in multiset(s.snaps[j].held);
    }
    if c in s.transient { assert c in multiset(s.transient); }
  }

  // ---------------------------------------------------------------- closing down

  const Empty := State([], [], [], None, [], None)
  const Rooted := State([], [Snap(1, [])], [0], Some(0), [], None)
  const Loaded := State([Counter(1, 0)], [Snap(1, [])], [0], Some(0), [0], None)
  const Waiting := State([Counter(1, 0)], [Snap(1, [])], [0], Some(0), [], Some(InFlight([0], Sent)))
  const GivenUp := State([Counter(0, 1)], [Snap(1, [])], [0], Some(0), [], Some(InFlight([0], Abandoned)))
  const Taken := State([Counter(0, 1)], [Snap(0, []), Snap(1, [0])], [0, 0], Some(1), [], None)

  lemma ToRooted()
    ensures StepFrom(Empty, LoadRoot([]), Rooted)
  {
    assert Empty.snaps + [Snap(1, [])] == Rooted.snaps && Empty.handles + [0] == Rooted.handles;
  }

  lemma ToLoaded()
    ensures StepFrom(Rooted, LoadFile, Loaded)
  {
    assert Rooted.counters + [Counter(1, 0)] == Loaded.counters && Rooted.transient + [0] == Loaded.transient;
  }

  lemma ToWaiting()
    ensures StepFrom(Loaded, SendPersist([0]), Waiting)
  {
    OneEntry();
  }

  lemma ToGivenUp()
    ensures StepFrom(Waiting, AbandonPersist, GivenUp)
  {
    OneEntry();
  }

  lemma ToTaken()
    ensures StepFrom(GivenUp, ApplyPersist([], [0]), Taken)
  {
    var s := GivenUp;
    assert [] + [0] == [0];
    assert AddAll(s.counters, []) == s.counters && DropAll(s.counters, []) == s.counters;
    var snaps := s.snaps + [Snap(1, [0])];
    assert snaps[0] == Snap(1, []) && snaps[0 := Snap(0, [])] == Taken.snaps;
    assert s.handles + [0] == Taken.handles;
  }

  /** Closing down can do it: the persister gives up waiting and closes its replacements
      while the introducer still has the map, and the new root contains a closed file. */
  lemma AbandonedReplacementIsClosed() returns (states: seq<State>, events: seq<Event>)
    ensures IsRun(states, events) && states[|events|] == Taken
    ensures Taken.snaps[Taken.root.value].refs > 0 && 0 in Taken.snaps[Taken.root.value].held && Taken.counters[0].closes == 1
  {
    hide StepFrom;
    ToRooted();
    ToLoaded();
    ToWaiting();
    ToGivenUp();
    ToTaken();
    states := [Empty, Rooted, Loaded, Waiting, GivenUp, Taken];
    events := [LoadRoot([]), LoadFile, SendPersist([0]), AbandonPersist, ApplyPersist([], [0])];
  }

  lemma OneEntry()
    ensures Less([0], [0]) == [] && DropAll([Counter(1, 0)], [0]) == [Counter(0, 1)]
  {
    assert Less([0], []) == [0] && Remove([0], 0) == [];
    assert DropAll([Counter(1, 0)], []) == [Counter(1, 0)];
  }
}
