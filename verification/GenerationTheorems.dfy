/** What holds over every run of writers, maintenance and readers of a vector space. */
module GenerationTheorems {
  import opened Basics
  import opened VectorChanges
  import opened VectorRevisions
  import opened Generations
  import opened GenerationSafety

  lemma InitialInv(s: Space)
    requires Initial(s)
    ensures Inv(s)
  {
  }

  lemma StepKeepsInv(s: Space, e: Event)
    requires Inv(s) && Enabled(s, e)
    ensures Inv(Next(s, e))
  {
    hide Inv, WriterNext, MaintenanceNext, ReaderNext;
    match e
    case Writes(w) => WriterStepKeeps(s, w);
    case Maintains(m) => MaintenanceStepKeeps(s, m);
    case Reads(d) => ReaderStepKeeps(s, d);
  }

  /** No process ever reports corruption, whatever fails and wherever processes end. */
  lemma {:induction false} RunKeepsInv(states: seq<Space>, events: seq<Event>, i: nat)
    requires IsRun(states, events) && i < |states|
    ensures Inv(states[i]) && !states[i].corrupt
  {
    hide Inv, Enabled, Next;
    if i == 0 {
      InitialInv(states[0]);
    } else {
      RunKeepsInv(states, events, i - 1);
      StepKeepsInv(states[i - 1], events[i - 1]);
    }
    NotCorrupt(states[i]);
  }

  lemma NotCorrupt(s: Space)
    requires Inv(s)
    ensures !s.corrupt
  {
  }

  /** Every catalogued generation can be loaded, its files being what was published. */
  lemma CataloguedLoads(s: Space, n: nat)
    requires Inv(s) && n in s.catalog
    ensures n in s.log && Load(s, n) == Some(s.log[n].commit) && Sound(s.spec, s.log[n])
  {
    assert Whole(s, n);
    NewestIsLast(s.catalog);
  }

  /** In every reachable state catalog numbers strictly increase, every catalogued
      generation has its index, metadata and commit files with matching checksums, and
      every generation a reader has pinned is catalogued and locked under its own lease. */
  lemma ReachableIsSafe(states: seq<Space>, events: seq<Event>, i: nat)
    requires IsRun(states, events) && i < |states|
    ensures Ascending(states[i].catalog)
    ensures forall n :: n in states[i].catalog ==> Load(states[i], n).Some?
    ensures forall r :: r in states[i].readers && states[i].readers[r].Holding? && states[i].readers[r].gen != 0 ==>
      states[i].readers[r].gen in states[i].catalog && Busy(states[i], states[i].readers[r].gen)
  {
    var s := states[i];
    RunKeepsInv(states, events, i);
    forall n | n in s.catalog ensures Load(s, n).Some? { CataloguedLoads(s, n); }
    forall r | r in s.readers && s.readers[r].Holding? && s.readers[r].gen != 0
      ensures s.readers[r].gen in s.catalog && Busy(s, s.readers[r].gen)
    {
      ReaderIsOk(s, r);
    }
  }

  // ---------------------------------------------------------------- history only grows

  ghost predicate LogGrows(s: Space, t: Space) {
    && (forall n :: n in s.log ==> n in t.log && t.log[n] == s.log[n])
    && Newest(s.catalog) <= Newest(t.catalog) && t.spec == s.spec
  }

  lemma HistoryGrows(s: Space, t: Space)
    ensures SameHistory(s, t) || RetiredFrom(s, t) ==> LogGrows(s, t)
    ensures forall gen, commit :: PublishedAs(s, t, gen, commit) ==> LogGrows(s, t)
  {
  }

  lemma StepGrows(s: Space, e: Event)
    requires Inv(s) && Enabled(s, e)
    ensures LogGrows(s, Next(s, e))
  {
    hide Inv, WriterNext, MaintenanceNext, ReaderNext, LogGrows, SameHistory, RetiredFrom, PublishedAs;
    HistoryGrows(s, Next(s, e));
    match e
    case Writes(w) => WriterStepKeeps(s, w);
    case Maintains(m) => MaintenanceStepKeeps(s, m);
    case Reads(d) => ReaderStepKeeps(s, d);
  }

  /** A new number is never one that was published before, even one long reclaimed. */
  lemma NumbersAreNew(s: Space, e: WriterStep)
    requires Inv(s) && WriterCan(s, e) && e.PublishCatalog?
    ensures PublishedAs(s, WriterNext(s, e), s.writer.phase.gen, s.writer.phase.commit)
  {
    hide Inv, WriterNext, PublishedAs;
    WriterStepKeeps(s, e);
  }

  lemma {:induction false} RunGrows(states: seq<Space>, events: seq<Event>, i: nat, j: nat)
    requires IsRun(states, events) && i <= j < |states|
    ensures LogGrows(states[i], states[j])
    decreases j
  {
    hide Inv, Enabled, Next;
    if i < j {
      RunGrows(states, events, i, j - 1);
      RunKeepsInv(states, events, j - 1);
      StepGrows(states[j - 1], events[j - 1]);
    }
  }

  /** What a reader loads from the generation it has pinned never changes while it holds it. */
  lemma PinnedNeverChanges(states: seq<Space>, events: seq<Event>, i: nat, j: nat, r: nat)
    requires IsRun(states, events) && i <= j < |states|
    requires r in states[i].readers && r in states[j].readers
    requires states[i].readers[r].Holding? && states[j].readers[r].Holding? && states[i].readers[r].gen == states[j].readers[r].gen
    ensures Load(states[i], states[i].readers[r].gen).Some?
    ensures Load(states[j], states[j].readers[r].gen) == Load(states[i], states[i].readers[r].gen)
  {
    var g := states[i].readers[r].gen;
    RunKeepsInv(states, events, i);
    RunKeepsInv(states, events, j);
    RunGrows(states, events, i, j);
    ReaderIsOk(states[i], r);
    ReaderIsOk(states[j], r);
    if g != 0 {
      CataloguedLoads(states[i], g);
      CataloguedLoads(states[j], g);
    }
  }

  /** The newest published generation can be loaded from then on until a newer one is
      published, across ends of processes and failed steps. */
  lemma NewestSurvives(states: seq<Space>, events: seq<Event>, i: nat, j: nat)
    requires IsRun(states, events) && i <= j < |states|
    ensures Newest(states[i].catalog) <= Newest(states[j].catalog)
    ensures Newest(states[i].catalog) == Newest(states[j].catalog) ==>
      Load(states[j], Newest(states[j].catalog)).Some?
      && Load(states[j], Newest(states[j].catalog)) == Load(states[i], Newest(states[i].catalog))
  {
    var n := Newest(states[i].catalog);
    RunKeepsInv(states, events, i);
    RunKeepsInv(states, events, j);
    RunGrows(states, events, i, j);
    NewestIsLast(states[i].catalog);
    NewestIsLast(states[j].catalog);
    if n == Newest(states[j].catalog) && n != 0 {
      CataloguedLoads(states[i], n);
      CataloguedLoads(states[j], n);
    }
  }

  /** Every generation ever published held exactly the vectors its metadata lists, and
      only revisions that were the text's at that moment. */
  lemma PublishedAgreesWithText(states: seq<Space>, events: seq<Event>, i: nat, n: nat)
    requires IsRun(states, events) && i < |states| && n in states[i].log
    ensures
      var p := states[i].log[n];
      Agreement(states[i].spec, p.commit.index, p.commit.revisions) && Current(p.commit.revisions, p.text)
  {
    RunKeepsInv(states, events, i);
    assert Sound(states[i].spec, states[i].log[n]);
  }

  /** When maintenance ends, only files of catalogued generations are left. */
  lemma MaintenanceLeavesNothing(states: seq<Space>, events: seq<Event>, i: nat, e: Entry)
    requires IsRun(states, events) && i < |events| && events[i] == Maintains(EndMaintenance)
    ensures Present(states[i + 1], e) ==> !e.RetiredCommit? && !e.Staging? && e.n in states[i + 1].catalog
  {
    RunKeepsInv(states, events, i);
    var s := states[i];
    assert Abandoned(s, e) ==> e in {};
  }

  /** Retirement takes only generations that no reader holds, and never the newest. */
  lemma RetiredAreFree(states: seq<Space>, events: seq<Event>, i: nat, n: nat)
    requires IsRun(states, events) && i < |events|
    requires n in states[i].catalog && n !in states[i + 1].catalog
    ensures !Held(states[i], n) && n != Newest(states[i].catalog)
  {
    hide Inv, WriterNext, MaintenanceNext, ReaderNext, Held, Newest, WriterCan, MaintenanceCan, ReaderCan;
    RunKeepsInv(states, events, i);
    var s := states[i];
    match events[i]
    case Writes(w) => WriterStepKeeps(s, w);
    case Reads(d) => ReaderStepKeeps(s, d);
    case Maintains(m) => MaintenanceStepKeeps(s, m);
  }
}
