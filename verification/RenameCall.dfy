/**
 One whole call of the folder rename: it lists the source prefix page by page and lets the mappers take their turns in
 whatever order, each call failing as the environment decides.
 */
module RenameCall {
  import opened Base
  import opened Paths
  import opened FolderRename
  import opened RenameReport
  import opened RenameService
  import opened PagedListing

  /** What a rename answers. */
  datatype RenameResult = RenameResult(source: string, target: string, copied: nat, deleted: nat, failed: seq<Failure>)

  /** A schedule extended by a turn. */
  lemma RunsMore<C>(job: Job, store: Store<C>, acts: seq<Action>, a: Action)
    requires Runs(job, store, acts, |acts|) && Enabled(job, After(job, store, acts, |acts|), a)
    ensures Runs(job, store, acts + [a], |acts| + 1)
    ensures After(job, store, acts + [a], |acts| + 1) == Step(job, After(job, store, acts, |acts|), a)
  {
    SamePrefix(job, store, acts, acts + [a], |acts|);
  }

  lemma {:induction false} SamePrefix<C>(job: Job, store: Store<C>, x: seq<Action>, y: seq<Action>, n: nat)
    requires n <= |x| && n <= |y| && Runs(job, store, x, n)
    requires forall i :: 0 <= i < n ==> x[i] == y[i]
    ensures Runs(job, store, y, n) && After(job, store, y, n) == After(job, store, x, n)
    decreases n
  {
    if n == 0 {
    } else {
      SamePrefix(job, store, x, y, n - 1);
    }
  }

  /** The turns still to come. */
  function TurnsLeft(phase: seq<Phase>): nat {
    if phase == [] then 0
    else TurnsLeft(phase[1..]) + (match phase[0] case Waiting => 2 case Copied => 1 case _ => 0)
  }

  lemma {:induction false} TurnsDrop(phase: seq<Phase>, i: nat, p: Phase)
    requires i < |phase|
    requires (phase[i].Waiting? && !p.Waiting?) || (phase[i].Copied? && !p.Waiting? && !p.Copied?)
    ensures TurnsLeft(phase[i := p]) < TurnsLeft(phase)
    decreases |phase|
  {
    if i == 0 {
      assert phase[i := p][1..] == phase[1..];
    } else {
      assert phase[i := p][1..] == phase[1..][i - 1 := p];
      TurnsDrop(phase[1..], i - 1, p);
    }
  }

  lemma StepDrops<C>(job: Job, r: Rename<C>, a: Action)
    requires Enabled(job, r, a)
    ensures TurnsLeft(Step(job, r, a).phase) < TurnsLeft(r.phase)
    ensures |Step(job, r, a).phase| == |r.phase|
  {
    TurnsDrop(r.phase, a.i, Step(job, r, a).phase[a.i]);
    assert Step(job, r, a).phase == r.phase[a.i := Step(job, r, a).phase[a.i]];
  }

  /** The mappers take turns, in any order, until each has moved its key or given up; `acts` is the schedule taken. */
  method RunMappers<C>(run: RenameRun<C>, fault: nat -> Fault, ghost store0: Store<C>) returns (ghost acts: seq<Action>)
    requires run.job.Proper() && run.View() == Start(run.job, store0)
    modifies run, run.bucket
    ensures Runs(run.job, store0, acts, |acts|) && run.View() == After(run.job, store0, acts, |acts|)
    ensures Finished(run.View())
  {
    acts := [];
    var turn := 0;
    while exists i :: 0 <= i < |run.phase| && (run.phase[i].Waiting? || run.phase[i].Copied?)
      invariant |run.phase| == |run.job.keys|
      invariant Runs(run.job, store0, acts, |acts|) && run.View() == After(run.job, store0, acts, |acts|)
      decreases TurnsLeft(run.phase)
    {
      var i :| 0 <= i < |run.phase| && (run.phase[i].Waiting? || run.phase[i].Copied?);
      var a := if run.phase[i].Waiting? then Copy(i, fault(turn)) else Delete(i, fault(turn));
      RunsMore(run.job, store0, acts, a);
      StepDrops(run.job, run.View(), a);
      run.Turn(a);
      acts := acts + [a];
      turn := turn + 1;
    }
  }

  /** What `ReportIsExact` and `UnreportedIffMoved` say of a schedule that ran to its end. */
  lemma ReportOfCall<C>(job: Job, store0: Store<C>, acts: seq<Action>)
    requires job.Proper() && job.Lists(store0) && Runs(job, store0, acts, |acts|) && Finished(After(job, store0, acts, |acts|))
    ensures
      var failed := After(job, store0, acts, |acts|).failed;
      && (forall x, y :: 0 <= x < y < |failed| ==> failed[x].sourceKey != failed[y].sourceKey)
      && (forall f :: f in failed ==>
            && f.sourceKey in store0 && job.source <= f.sourceKey
            && f.destinationKey == job.target + f.sourceKey[|job.source|..])
      && (forall i :: 0 <= i < |job.keys| ==>
            && ((exists f :: f in failed && f.sourceKey == job.keys[i] && f.copyStage) <==>
                Copy(i, LostRequest) in acts || Copy(i, LostResponse) in acts)
            && ((exists f :: f in failed && f.sourceKey == job.keys[i] && !f.copyStage) <==>
                Delete(i, LostRequest) in acts || Delete(i, LostResponse) in acts)
            && ((forall f :: f in failed ==> f.sourceKey != job.keys[i]) <==> Delete(i, Ok) in acts))
  {
    ReportIsExact(job, store0, acts, |acts|);
    assert forall a :: Taken(acts, |acts|, a) <==> a in acts;
    forall i | 0 <= i < |job.keys|
      ensures (forall f :: f in After(job, store0, acts, |acts|).failed ==> f.sourceKey != job.keys[i]) <==> Delete(i, Ok) in acts
    {
      UnreportedIffMoved(job, store0, acts, |acts|, i);
    }
  }

  /**
   `renameFolder`, for any page sizes, any order of the mappers' turns and any failing call. Equal prefixes answer zero
   and touch nothing. Otherwise bucket and answer are those of some schedule over the listed keys that ran to its end:
   the counters add up, and without a failure the folder has moved exactly, if no destination was a listed key. The
   failures name each key once, with the key it was to move to, by the stage whose call threw.
   */
  method RenameFolder<C>(bucket: Bucket<C>, order: seq<Key>, oldPrefix: string, newPrefix: string,
                         reach: nat -> nat, fault: nat -> Fault)
    returns (result: RenameResult, ghost job: Job, ghost acts: seq<Action>)
    requires OrderOf(order, bucket.objects)
    modifies bucket
    ensures result.source == NormalizePrefix(oldPrefix) && result.target == NormalizePrefix(newPrefix)
    ensures result.source == result.target ==>
              bucket.objects == old(bucket.objects) && result.copied == 0 && result.deleted == 0 && result.failed == []
    ensures result.source != result.target ==>
              && job == Job(result.source, result.target, Shown(order, old(bucket.objects), result.source))
              && job.Proper() && job.Lists(old(bucket.objects)) && Runs(job, old(bucket.objects), acts, |acts|)
              && var r := After(job, old(bucket.objects), acts, |acts|);
                 && Finished(r) && bucket.objects == r.store
                 && result.copied == r.copied && result.deleted == r.deleted && result.failed == r.failed
    ensures result.source != result.target ==>
              result.deleted + |result.failed| == |job.keys| && result.copied == result.deleted + DeleteFailures(result.failed)
    ensures forall x, y :: 0 <= x < y < |result.failed| ==> result.failed[x].sourceKey != result.failed[y].sourceKey
    ensures forall f :: f in result.failed ==>
              && f.sourceKey in old(bucket.objects) && result.source <= f.sourceKey
              && f.destinationKey == result.target + f.sourceKey[|result.source|..]
    ensures forall i :: 0 <= i < |job.keys| ==>
              && ((exists f :: f in result.failed && f.sourceKey == job.keys[i] && f.copyStage) <==>
                  Copy(i, LostRequest) in acts || Copy(i, LostResponse) in acts)
              && ((exists f :: f in result.failed && f.sourceKey == job.keys[i] && !f.copyStage) <==>
                  Delete(i, LostRequest) in acts || Delete(i, LostResponse) in acts)
              && ((forall f :: f in result.failed ==> f.sourceKey != job.keys[i]) <==> Delete(i, Ok) in acts)
    ensures result.source != result.target && job.Disjoint() && result.failed == [] ==>
              bucket.objects == ExactMove(old(bucket.objects), result.source, result.target)
  {
    var sourcePrefix := NormalizePrefix(oldPrefix);
    var targetPrefix := NormalizePrefix(newPrefix);
    job, acts := Job(sourcePrefix, targetPrefix, []), [];
    if sourcePrefix == targetPrefix {
      result := RenameResult(sourcePrefix, targetPrefix, 0, 0, []);
      return;
    }
    var keys := ListAllKeys(bucket.objects, order, sourcePrefix, reach);
    ghost var store0 := bucket.objects;
    job := Job(sourcePrefix, targetPrefix, keys);
    ListingIsProper(store0, order, sourcePrefix, targetPrefix);
    var run := new RenameRun<C>(Job(sourcePrefix, targetPrefix, keys), bucket);
    acts := RunMappers(run, fault, store0);
    result := RenameResult(sourcePrefix, targetPrefix, run.copied, run.deleted, run.failed);
    RenameAddsUp(job, store0, acts, |acts|);
    ReportOfCall(job, store0, acts);
    if job.Disjoint() && result.failed == [] {
      CleanRenameIsExact(job, store0, acts, |acts|);
    }
  }
}
