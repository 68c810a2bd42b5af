/** Which files may be removed from the index directory.

    A snapshot file lists segment ids with their deleted documents; it is readable
    only while every segment file it lists is there. */
module DeletionPolicy {
  import opened Segments

  datatype SegmentRef = SegmentRef(id: nat, deleted: set<nat>)

  datatype Disk = Disk(segments: map<nat, seq<Doc>>, snapshots: map<nat, seq<SegmentRef>>)

  function RefIds(refs: seq<SegmentRef>): set<nat> {
    set r | r in refs :: r.id
  }

  /** Every snapshot file has all its segment files. */
  ghost predicate Complete(d: Disk) {
    forall e :: e in d.snapshots ==> RefIds(d.snapshots[e]) <= d.segments.Keys
  }

  function Elements(s: seq<nat>): set<nat> {
    set x | x in s
  }

  ghost predicate Ascending(s: seq<nat>) {
    forall i, j :: 0 <= i < j < |s| ==> s[i] < s[j]
  }

  function Without(s: seq<nat>, gone: set<nat>): seq<nat> {
    if s == [] then []
    else Without(s[..|s| - 1], gone) + if s[|s| - 1] in gone then [] else [s[|s| - 1]]
  }

  // ---------------------------------------------------------------- the policy as a value

  datatype Policy = Policy(n: nat, liveEpochs: seq<nat>, deletableEpochs: seq<nat>,
                           liveSegments: map<nat, set<nat>>, known: set<nat>)
  {
    function Committed(): seq<nat> {
      deletableEpochs + liveEpochs
    }

    ghost predicate Valid() {
      && Ascending(Committed())
      && liveSegments.Keys == Elements(Committed())
      && |liveEpochs| <= n
      && forall e :: e in liveSegments ==> liveSegments[e] <= known
    }

    /** Segments some committed snapshot, removed or not, may still need. */
    function Referenced(): set<nat> {
      set e, id | e in liveSegments && id in liveSegments[e] :: id
    }
  }

  function NewPolicy(n: nat): Policy {
    Policy(n, [], [], map[], {})
  }

  function Commit(p: Policy, epoch: nat, ids: set<nat>): Policy {
    var live := p.liveEpochs + [epoch];
    var trim := if |live| > p.n then |live| - p.n else 0;
    p.(known := p.known + ids,
       liveEpochs := live[trim..],
       deletableEpochs := p.deletableEpochs + live[..trim],
       liveSegments := p.liveSegments[epoch := ids])
  }

  /** One pass of Cleanup in which exactly the snapshots in gone and the segments in
      removed were really deleted: snapshots only if deletable, segments only if no
      remaining snapshot needs them. */
  ghost predicate CleanedBy(p: Policy, d: Disk, gone: set<nat>, removed: set<nat>, p': Policy, d': Disk) {
    && gone <= Elements(p.deletableEpochs)
    && p' == p.(deletableEpochs := Without(p.deletableEpochs, gone), liveSegments := p.liveSegments - gone,
                known := p.known - removed)
    && removed <= p.known && removed !! p'.Referenced()
    && d' == Disk(d.segments - removed, d.snapshots - gone)
  }

  ghost predicate Covers(p: Policy, d: Disk) {
    && d.snapshots.Keys == p.liveSegments.Keys
    && forall e :: e in d.snapshots ==> RefIds(d.snapshots[e]) <= p.liveSegments[e]
  }

  lemma {:induction false} WithoutFacts(s: seq<nat>, gone: set<nat>)
    requires Ascending(s)
    ensures Ascending(Without(s, gone))
    ensures Elements(Without(s, gone)) == Elements(s) - gone
    ensures |Without(s, gone)| <= |s|
  {
    if s != [] {
      var init, last := s[..|s| - 1], s[|s| - 1];
      WithoutFacts(init, gone);
      assert Elements(s) == Elements(init) + {last};
      assert Elements(Without(s, gone)) == Elements(Without(init, gone)) + if last in gone then {} else {last};
      forall i | 0 <= i < |Without(init, gone)| ensures Without(init, gone)[i] < last {
        assert Without(init, gone)[i] in Elements(Without(init, gone));
        assert Without(init, gone)[i] in init;
      }
    }
  }

  lemma AscendingConcat(a: seq<nat>, b: seq<nat>)
    ensures Ascending(a + b) <==> Ascending(a) && Ascending(b) && forall x, y :: x in a && y in b ==> x < y
    ensures Elements(a + b) == Elements(a) + Elements(b)
  {
    if Ascending(a) && Ascending(b) && forall x, y :: x in a && y in b ==> x < y {
      forall i, j | 0 <= i < j < |a + b| ensures (a + b)[i] < (a + b)[j] {
        if i < |a| <= j { assert a[i] in a && b[j - |a|] in b; }
      }
    }
    if Ascending(a + b) {
      forall i, j | 0 <= i < j < |b| ensures b[i] < b[j] { assert (a + b)[|a| + i] < (a + b)[|a| + j]; }
      forall i, j | 0 <= i < j < |a| ensures a[i] < a[j] { assert (a + b)[i] < (a + b)[j]; }
      forall i, j | 0 <= i < |a| && 0 <= j < |b| ensures a[i] < b[j] { assert (a + b)[i] < (a + b)[|a| + j]; }
    }
  }

  /** A commit of a newer epoch keeps the policy valid, and of all epochs committed the n
      newest live. */
  lemma CommitKeepsValid(p: Policy, epoch: nat, ids: set<nat>)
    requires p.Valid() && forall e :: e in p.Committed() ==> e < epoch
    ensures Commit(p, epoch, ids).Valid()
    ensures Commit(p, epoch, ids).Committed() == p.Committed() + [epoch]
    ensures |Commit(p, epoch, ids).liveEpochs| == if |p.liveEpochs| + 1 <= p.n then |p.liveEpochs| + 1 else p.n
    ensures
      var q := Commit(p, epoch, ids);
      && q.n == p.n && q.known == p.known + ids && q.liveSegments == p.liveSegments[epoch := ids]
      && (p.n >= 1 ==> q.liveEpochs != [] && q.liveEpochs[|q.liveEpochs| - 1] == epoch)
  {
    hide Commit, Ascending, Elements;
    CommitBooks(p, epoch, ids);
    AscendingConcat(p.Committed(), [epoch]);
    OneElement(epoch);
  }

  lemma OneElement(epoch: nat)
    ensures Elements([epoch]) == {epoch} && Ascending([epoch])
  {
  }

  /** A commit appends its epoch and moves the oldest live epochs over. */
  lemma CommitBooks(p: Policy, epoch: nat, ids: set<nat>)
    ensures
      var q := Commit(p, epoch, ids);
      && q.Committed() == p.Committed() + [epoch]
      && |q.liveEpochs| == (if |p.liveEpochs| + 1 <= p.n then |p.liveEpochs| + 1 else p.n)
      && q.n == p.n && q.known == p.known + ids && q.liveSegments == p.liveSegments[epoch := ids]
      && (p.n >= 1 ==> q.liveEpochs != [] && q.liveEpochs[|q.liveEpochs| - 1] == epoch)
  {
    var live := p.liveEpochs + [epoch];
    var trim := if |live| > p.n then |live| - p.n else 0;
    MovedOver(p.deletableEpochs, live, trim);
    MovedOver(p.deletableEpochs, live, |p.liveEpochs|);
    assert live[..|p.liveEpochs|] == p.liveEpochs && live[|p.liveEpochs|..] == [epoch];
  }

  lemma MovedOver(front: seq<nat>, live: seq<nat>, trim: nat)
    requires trim <= |live|
    ensures (front + live[..trim]) + live[trim..] == front + live
  {
  }

  lemma CleanupKeepsValid(p: Policy, d: Disk, gone: set<nat>, removed: set<nat>, p': Policy, d': Disk)
    requires p.Valid() && CleanedBy(p, d, gone, removed, p', d')
    ensures p'.Valid() && p'.liveEpochs == p.liveEpochs
  {
    AscendingConcat(p.deletableEpochs, p.liveEpochs);
    WithoutFacts(p.deletableEpochs, gone);
    AscendingConcat(p'.deletableEpochs, p'.liveEpochs);
    hide Without;
    forall x | x in p'.deletableEpochs ensures x in p.deletableEpochs {
      assert x in Elements(p'.deletableEpochs);
    }
    forall x | x in gone ensures x !in p.liveEpochs {
      assert x in p.deletableEpochs;
    }
    forall e | e in p'.liveSegments ensures p'.liveSegments[e] <= p'.known {
      assert p'.liveSegments[e] <= p'.Referenced();
    }
  }

  /** Cleanup never removes a segment file that a remaining snapshot file lists,
      whichever of its removals failed. */
  lemma CleanupKeepsComplete(p: Policy, d: Disk, gone: set<nat>, removed: set<nat>, p': Policy, d': Disk)
    requires p.Valid() && Covers(p, d) && Complete(d) && CleanedBy(p, d, gone, removed, p', d')
    ensures p'.Valid() && Covers(p', d') && Complete(d')
    ensures p'.liveEpochs == p.liveEpochs
  {
    hide Without, Ascending, Elements;
    CleanupKeepsValid(p, d, gone, removed, p', d');
    forall e, id | e in d'.snapshots && id in RefIds(d'.snapshots[e]) ensures id in d'.segments {
      assert id in p'.liveSegments[e];
      assert id in p'.Referenced();
    }
  }

  // ---------------------------------------------------------------- the policy object

  /** The directory as the policy uses it.  Any files may be locked against removal. */
  class Directory {
    var segments: map<nat, seq<Doc>>
    var snapshots: map<nat, seq<SegmentRef>>
    const lockedSegments: set<nat>
    const lockedSnapshots: set<nat>

    function View(): Disk
      reads this
    {
      Disk(segments, snapshots)
    }

    method RemoveSnapshot(epoch: nat) returns (ok: bool)
      modifies this`snapshots
      ensures ok == (epoch !in lockedSnapshots)
      ensures snapshots == if ok then old(snapshots) - {epoch} else old(snapshots)
    {
      ok := epoch !in lockedSnapshots;
      if ok { snapshots := snapshots - {epoch}; }
    }

    method RemoveSegment(id: nat) returns (ok: bool)
      modifies this`segments
      ensures ok == (id !in lockedSegments)
      ensures segments == if ok then old(segments) - {id} else old(segments)
    {
      ok := id !in lockedSegments;
      if ok { segments := segments - {id}; }
    }
  }

  class KeepNLatest {
    const n: nat
    var liveEpochs: seq<nat>
    var deletableEpochs: seq<nat>
    var liveSegments: map<nat, set<nat>>
    var knownSegmentFiles: set<nat>

    function View(): Policy
      reads this
    {
      Policy(n, liveEpochs, deletableEpochs, liveSegments, knownSegmentFiles)
    }

    constructor (n: nat)
      ensures View() == NewPolicy(n)
    {
      this.n := n;
      liveEpochs, deletableEpochs, liveSegments, knownSegmentFiles := [], [], map[], {};
    }

    /** The new epoch is the newest of those live, of which at most n stay; the oldest
        beyond that become deletable, in order. */
    method CommitSnapshot(epoch: nat, refs: seq<SegmentRef>)
      modifies this
      ensures View() == Commit(old(View()), epoch, RefIds(refs))
      ensures |liveEpochs| == if old(|liveEpochs|) + 1 <= n then old(|liveEpochs|) + 1 else n
      ensures deletableEpochs + liveEpochs == old(deletableEpochs + liveEpochs) + [epoch]
      ensures liveSegments == old(liveSegments)[epoch := RefIds(refs)] && knownSegmentFiles == old(knownSegmentFiles) + RefIds(refs)
    {
      CommitBooks(View(), epoch, RefIds(refs));
      var snapshotSegments: set<nat> := {};
      for i := 0 to |refs|
        invariant snapshotSegments == RefIds(refs[..i])
        invariant knownSegmentFiles == old(knownSegmentFiles) + snapshotSegments
        invariant unchanged(`liveEpochs) && unchanged(`deletableEpochs) && unchanged(`liveSegments)
      {
        assert RefIds(refs[..i + 1]) == RefIds(refs[..i]) + {refs[i].id} by {
          assert refs[..i + 1] == refs[..i] + [refs[i]];
        }
        snapshotSegments := snapshotSegments + {refs[i].id};
        knownSegmentFiles := knownSegmentFiles + {refs[i].id};
      }
      assert refs[..|refs|] == refs;
      liveEpochs := liveEpochs + [epoch];
      liveSegments := liveSegments[epoch := snapshotSegments];
      if |liveEpochs| > n {
        var newlyDeletable := liveEpochs[..|liveEpochs| - n];
        liveEpochs := liveEpochs[|liveEpochs| - n..];
        deletableEpochs := deletableEpochs + newlyDeletable;
      }
    }

    method TrackSegmentFiles(ids: seq<nat>)
      modifies this`knownSegmentFiles
      ensures knownSegmentFiles == old(knownSegmentFiles) + Elements(ids)
    {
      for i := 0 to |ids|
        invariant knownSegmentFiles == old(knownSegmentFiles) + Elements(ids[..i])
      {
        assert Elements(ids[..i + 1]) == Elements(ids[..i]) + {ids[i]} by {
          assert ids[..i + 1] == ids[..i] + [ids[i]];
        }
        knownSegmentFiles := knownSegmentFiles + {ids[i]};
      }
      assert ids[..|ids|] == ids;
    }

    /** One pass removes every deletable snapshot and every known segment file that no
        remaining snapshot needs, except those locked against removal. */
    method Cleanup(dir: Directory)
      requires View().Valid()
      modifies this, dir
      ensures
        var gone := Elements(old(deletableEpochs)) - dir.lockedSnapshots;
        var removed := old(knownSegmentFiles) - View().Referenced() - dir.lockedSegments;
        CleanedBy(old(View()), old(dir.View()), gone, removed, View(), dir.View())
      ensures liveEpochs == old(liveEpochs)
    {
      ghost var p, d := View(), dir.View();
      AscendingConcat(deletableEpochs, liveEpochs);
      ghost var gone := CleanupSnapshots(dir);
      ghost var removed := CleanupSegments(dir);
      assert CleanedBy(p, d, gone, removed, View(), dir.View());
    }

    method CleanupSnapshots(dir: Directory) returns (ghost gone: set<nat>)
      requires Ascending(deletableEpochs)
      modifies this`deletableEpochs, this`liveSegments, dir`snapshots
      ensures gone == Elements(old(deletableEpochs)) - dir.lockedSnapshots
      ensures deletableEpochs == Without(old(deletableEpochs), gone)
      ensures liveSegments == old(liveSegments) - gone && dir.snapshots == old(dir.snapshots) - gone
    {
      gone := {};
      var remainingEpochs: seq<nat> := [];
      assert deletableEpochs[..0] == [];
      for i := 0 to |deletableEpochs|
        invariant deletableEpochs == old(deletableEpochs)
        invariant gone == Elements(deletableEpochs[..i]) - dir.lockedSnapshots
        invariant remainingEpochs == Without(deletableEpochs[..i], gone)
        invariant liveSegments == old(liveSegments) - gone && dir.snapshots == old(dir.snapshots) - gone
      {
        var epoch := deletableEpochs[i];
        assert deletableEpochs[..i + 1][..i] == deletableEpochs[..i];
        assert deletableEpochs[..i + 1] == deletableEpochs[..i] + [epoch];
        var ok := dir.RemoveSnapshot(epoch);
        if !ok {
          remainingEpochs := remainingEpochs + [epoch];
        } else {
          WithoutOther(deletableEpochs[..i], gone, epoch);
          liveSegments := liveSegments - {epoch};
          gone := gone + {epoch};
        }
      }
      assert deletableEpochs[..|deletableEpochs|] == deletableEpochs;
      deletableEpochs := remainingEpochs;
    }

    method CleanupSegments(dir: Directory) returns (ghost removed: set<nat>)
      modifies this`knownSegmentFiles, dir`segments
      ensures removed == old(knownSegmentFiles) - View().Referenced() - dir.lockedSegments
      ensures knownSegmentFiles == old(knownSegmentFiles) - removed
      ensures dir.segments == old(dir.segments) - removed
    {
      removed := {};
      var rest := knownSegmentFiles;
      while rest != {}
        invariant rest <= knownSegmentFiles && liveSegments == old(liveSegments)
        invariant removed == old(knownSegmentFiles) - rest - View().Referenced() - dir.lockedSegments
        invariant knownSegmentFiles == old(knownSegmentFiles) - removed
        invariant dir.segments == old(dir.segments) - removed
        decreases rest
      {
        var id :| id in rest;
        rest := rest - {id};
        if exists e :: e in liveSegments && id in liveSegments[e] {
          continue;
        }
        var ok := dir.RemoveSegment(id);
        if !ok {
          continue;
        }
        knownSegmentFiles := knownSegmentFiles - {id};
        removed := removed + {id};
      }
    }
  }

  lemma {:induction false} WithoutOther(s: seq<nat>, gone: set<nat>, x: nat)
    requires x !in s
    ensures Without(s, gone + {x}) == Without(s, gone)
  {
    if s != [] { WithoutOther(s[..|s| - 1], gone, x); }
  }
}
