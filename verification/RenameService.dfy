/**
 The rename as it is written: a bucket whose objects calls change in place, and one object holding the counters,
 the failure list and the progress record that the concurrent mappers share. Each method of `RenameRun` is one
 turn of a mapper between two awaits.
 */
module RenameService {
  import opened Paths
  import opened FolderRename

  class Bucket<C> {
    var objects: Store<C>

    constructor (objects: Store<C>)
      ensures this.objects == objects
    {
      this.objects := objects;
    }

    /** CopyObject; false if the call throws. */
    method CopyObject(from: Key, to: Key, fault: Fault) returns (ok: bool)
      modifies this
      ensures ok <==> from in old(objects) && fault.Ok?
      ensures objects == if from in old(objects) && !fault.LostRequest? then old(objects)[to := old(objects)[from]]
                         else old(objects)
    {
      if from !in objects || fault.LostRequest? {
        return false;
      }
      objects := objects[to := objects[from]];
      return fault.Ok?;
    }

    /** DeleteObject; false if the call throws. Deleting a missing key succeeds. */
    method DeleteObject(key: Key, fault: Fault) returns (ok: bool)
      modifies this
      ensures ok <==> fault.Ok?
      ensures objects == if fault.LostRequest? then old(objects) else old(objects) - {key}
    {
      if fault.LostRequest? {
        return false;
      }
      objects := objects - {key};
      return fault.Ok?;
    }
  }

  class RenameRun<C> {
    const job: Job
    const bucket: Bucket<C>
    var phase: seq<Phase>
    var copied: nat
    var deleted: nat
    var failed: seq<Failure>
    var progress: Progress
    var reports: seq<Progress>

    constructor (job: Job, bucket: Bucket<C>)
      ensures this.job == job && this.bucket == bucket
      ensures View() == Start(job, bucket.objects)
      ensures |phase| == |job.keys| && (forall i :: 0 <= i < |phase| ==> phase[i] == Waiting)
      ensures copied == deleted == 0 && failed == [] && reports == [Progress(|job.keys|, 0, 0, 0, 0)] && progress == reports[0]
    {
      this.job, this.bucket := job, bucket;
      phase := seq(|job.keys|, _ => Waiting);
      copied, deleted, failed := 0, 0, [];
      progress := Progress(|job.keys|, 0, 0, 0, 0);
      reports := [Progress(|job.keys|, 0, 0, 0, 0)];
    }

    ghost function View(): Rename<C>
      reads this, bucket
    {
      Rename(bucket.objects, phase, copied, deleted, failed, progress, reports)
    }

    method RecordFailure(i: nat, copyStage: bool)
      requires i < |job.keys| == |phase| && Under(job.source, job.keys[i])
      modifies this
      ensures View() == Fails(job, old(View()), i, copyStage)
      ensures failed == old(failed) + [Failure(job.keys[i], job.target + job.keys[i][|job.source|..], copyStage)]
      ensures copied == old(copied) && deleted == old(deleted)
      ensures phase == old(phase)[i := if copyStage then CopyFailed else DeleteFailed]
      ensures progress == old(progress).(failed := old(progress).failed + 1, processed := old(progress).processed + 1)
      ensures reports == old(reports) + [progress]
    {
      failed := failed + [Failure(job.keys[i], Destination(job.source, job.target, job.keys[i]), copyStage)];
      progress := progress.(failed := progress.failed + 1);
      progress := progress.(processed := progress.processed + 1);
      phase := phase[i := if copyStage then CopyFailed else DeleteFailed];
      reports := reports + [progress];
    }

    /** A mapper copies its object. It is done with its key if the call throws, which a missing object makes it do. */
    method CopyTurn(i: nat, fault: Fault)
      requires Enabled(job, View(), Copy(i, fault))
      modifies this, bucket
      ensures View() == CopyStep(job, old(View()), i, fault)
      ensures
        var k, before := job.keys[i], old(bucket.objects);
        var d, threw := job.target + k[|job.source|..], k !in before || fault != Ok;
        && bucket.objects == (if k in before && fault != LostRequest then before[d := before[k]] else before)
        && failed == (if threw then old(failed) + [Failure(k, d, true)] else old(failed))
        && phase == old(phase)[i := if threw then CopyFailed else Copied]
        && copied == old(copied) + (if threw then 0 else 1) && deleted == old(deleted)
        && progress == (if threw then old(progress).(failed := old(progress).failed + 1, processed := old(progress).processed + 1)
                        else old(progress).(copied := old(progress).copied + 1))
        && reports == (if threw then old(reports) + [progress] else old(reports))
    {
      var sourceKey := job.keys[i];
      var ok := bucket.CopyObject(sourceKey, Destination(job.source, job.target, sourceKey), fault);
      if !ok {
        RecordFailure(i, true);
        return;
      }
      phase := phase[i := Copied];
      copied := copied + 1;
      progress := progress.(copied := progress.copied + 1);
    }

    /** A mapper whose object is copied deletes it at its old key. */
    method DeleteTurn(i: nat, fault: Fault)
      requires Enabled(job, View(), Delete(i, fault))
      modifies this, bucket
      ensures View() == DeleteStep(job, old(View()), i, fault)
      ensures
        var k := job.keys[i];
        && bucket.objects == (if fault != LostRequest then old(bucket.objects) - {k} else old(bucket.objects))
        && failed == (if fault != Ok then old(failed) + [Failure(k, job.target + k[|job.source|..], false)] else old(failed))
        && phase == old(phase)[i := if fault != Ok then DeleteFailed else Moved]
        && deleted == old(deleted) + (if fault != Ok then 0 else 1) && copied == old(copied)
        && progress == (if fault != Ok
                        then old(progress).(failed := old(progress).failed + 1, processed := old(progress).processed + 1)
                        else old(progress).(deleted := old(progress).deleted + 1, processed := old(progress).processed + 1))
        && reports == old(reports) + [progress]
    {
      var ok := bucket.DeleteObject(job.keys[i], fault);
      if !ok {
        RecordFailure(i, false);
        return;
      }
      phase := phase[i := Moved];
      deleted := deleted + 1;
      progress := progress.(deleted := progress.deleted + 1);
      progress := progress.(processed := progress.processed + 1);
      reports := reports + [progress];
    }

    /** Whichever mapper's turn is next. */
    method Turn(a: Action)
      requires Enabled(job, View(), a)
      modifies this, bucket
      ensures View() == Step(job, old(View()), a)
    {
      match a {
        case Copy(i, fault) => CopyTurn(i, fault);
        case Delete(i, fault) => DeleteTurn(i, fault);
      }
    }
  }
}
