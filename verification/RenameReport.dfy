/**
 What a rename reports: over every schedule, which keys its failure list names, at which stage, and where the objects
 of the keys it does and does not name are. Everything is said of the listed keys, the prefixes and the failing calls.
 */
module RenameReport {
  import opened Base
  import opened Paths
  import opened FolderRename

  /** The turn is among the first `n` of the schedule. */
  ghost predicate Taken(acts: seq<Action>, n: nat, a: Action)
    requires n <= |acts|
  {
    exists m :: 0 <= m < n && acts[m] == a
  }

  /** Where each mapper stands, read off the turns taken so far. */
  ghost predicate PhasesOk<C>(job: Job, acts: seq<Action>, n: nat, r: Rename<C>)
    requires n <= |acts|
  {
    && |r.phase| == |job.keys|
    && (forall i :: 0 <= i < |job.keys| ==>
          && (r.phase[i].CopyFailed? <==> Taken(acts, n, Copy(i, LostRequest)) || Taken(acts, n, Copy(i, LostResponse)))
          && (r.phase[i].DeleteFailed? <==> Taken(acts, n, Delete(i, LostRequest)) || Taken(acts, n, Delete(i, LostResponse)))
          && (r.phase[i].Moved? <==> Taken(acts, n, Delete(i, Ok)))
          && (r.phase[i].Waiting? || r.phase[i].Copied? ==> job.keys[i] in r.store))
  }

  /** The failure list against the mappers' phases. */
  ghost predicate ListOk<C>(job: Job, r: Rename<C>)
    requires job.Proper()
  {
    && |r.phase| == |job.keys|
    && (forall x, y :: 0 <= x < y < |r.failed| ==> r.failed[x].sourceKey != r.failed[y].sourceKey)
    && (forall f :: f in r.failed ==>
          f.sourceKey in job.keys && f.destinationKey == job.target + f.sourceKey[|job.source|..])
    && (forall i :: 0 <= i < |job.keys| ==>
          && (r.phase[i].CopyFailed? <==> Reported(job, r, i, true))
          && (r.phase[i].DeleteFailed? <==> Reported(job, r, i, false)))
  }

  ghost predicate Reported<C>(job: Job, r: Rename<C>, i: nat, copyStage: bool)
    requires job.Proper() && i < |job.keys|
  {
    Failure(job.keys[i], job.target + job.keys[i][|job.source|..], copyStage) in r.failed
  }

  lemma PhasesStep<C>(job: Job, acts: seq<Action>, n: nat, r: Rename<C>)
    requires job.Proper() && n < |acts| && PhasesOk(job, acts, n, r) && Enabled(job, r, acts[n])
    ensures PhasesOk(job, acts, n + 1, Step(job, r, acts[n]))
  {
    var a := acts[n];
    var t := Step(job, r, a);
    forall b
      ensures Taken(acts, n + 1, b) <==> Taken(acts, n, b) || b == a
    {
    }
    assert |t.phase| == |r.phase| && forall j :: 0 <= j < |r.phase| && j != a.i ==> t.phase[j] == r.phase[j];
    forall j | 0 <= j < |job.keys|
      ensures t.phase[j].Waiting? || t.phase[j].Copied? ==> job.keys[j] in t.store
    {
      assert a.Copy? ==> job.keys[a.i] in r.store;
    }
  }

  /** A mapper that has neither failed before nor fails now leaves the list as it is. */
  lemma ListKept<C>(job: Job, r: Rename<C>, t: Rename<C>, i: nat)
    requires job.Proper() && ListOk(job, r) && i < |r.phase| == |t.phase| && t.failed == r.failed
    requires t.phase == r.phase[i := t.phase[i]] && t.phase[i] in {Copied, Moved} && r.phase[i] in {Waiting, Copied}
    ensures ListOk(job, t)
  {
    forall j, copyStage | 0 <= j < |job.keys|
      ensures Reported(job, t, j, copyStage) == Reported(job, r, j, copyStage)
    {
    }
  }

  lemma NotYetNamed<C>(job: Job, r: Rename<C>, i: nat, f: Failure)
    requires job.Proper() && ListOk(job, r) && i < |job.keys| && r.phase[i] in {Waiting, Copied} && f in r.failed
    ensures f.sourceKey != job.keys[i]
  {
    if f.sourceKey == job.keys[i] {
      assert f == Failure(job.keys[i], job.target + job.keys[i][|job.source|..], f.copyStage);
      assert Reported(job, r, i, f.copyStage);
      assert false;
    }
  }

  lemma ListGrows<C>(job: Job, r: Rename<C>, i: nat, copyStage: bool)
    requires job.Proper() && ListOk(job, r) && i < |job.keys| && r.phase[i] in {Waiting, Copied}
    ensures ListOk(job, Fails(job, r, i, copyStage))
  {
    var t, k := Fails(job, r, i, copyStage), job.keys[i];
    var f := Failure(k, job.target + k[|job.source|..], copyStage);
    assert t.failed == r.failed + [f];
    forall x | 0 <= x < |r.failed|
      ensures r.failed[x].sourceKey != k
    {
      NotYetNamed(job, r, i, r.failed[x]);
    }
    forall j, stage | 0 <= j < |job.keys|
      ensures Reported(job, t, j, stage) <==> Reported(job, r, j, stage) || (j == i && stage == copyStage)
    {
      assert j != i ==> job.keys[j] != k;
    }
    assert !Reported(job, r, i, true) && !Reported(job, r, i, false);
  }

  lemma ListStep<C>(job: Job, r: Rename<C>, a: Action)
    requires job.Proper() && ListOk(job, r) && Enabled(job, r, a)
    ensures ListOk(job, Step(job, r, a))
  {
    var t := Step(job, r, a);
    if t.failed == r.failed {
      ListKept(job, r, t, a.i);
    } else {
      var s := r.(store := t.store);
      assert ListOk(job, s) by { ListSeesNoStore(job, r, s); }
      ListGrows(job, s, a.i, a.Copy?);
      assert t == Fails(job, s, a.i, a.Copy?);
    }
  }

  lemma ListSeesNoStore<C>(job: Job, r: Rename<C>, s: Rename<C>)
    requires job.Proper() && ListOk(job, r) && s == r.(store := s.store)
    ensures ListOk(job, s)
  {
    forall j, copyStage | 0 <= j < |job.keys|
      ensures Reported(job, s, j, copyStage) == Reported(job, r, j, copyStage)
    {
    }
  }

  ghost predicate ReportOk<C>(job: Job, acts: seq<Action>, n: nat, r: Rename<C>)
    requires job.Proper() && n <= |acts|
  {
    PhasesOk(job, acts, n, r) && ListOk(job, r)
  }

  lemma ReportStep<C>(job: Job, acts: seq<Action>, n: nat, r: Rename<C>)
    requires job.Proper() && n < |acts| && ReportOk(job, acts, n, r) && Enabled(job, r, acts[n])
    ensures ReportOk(job, acts, n + 1, Step(job, r, acts[n]))
  {
    PhasesStep(job, acts, n, r);
    ListStep(job, r, acts[n]);
  }

  lemma ReportStart<C>(job: Job, store0: Store<C>, acts: seq<Action>)
    requires job.Proper() && job.Lists(store0)
    ensures ReportOk(job, acts, 0, Start(job, store0))
  {
  }

  lemma LastTurn<C>(job: Job, store0: Store<C>, acts: seq<Action>, n: nat) returns (r: Rename<C>)
    requires 0 < n <= |acts| && Runs(job, store0, acts, n)
    ensures Runs(job, store0, acts, n - 1) && r == After(job, store0, acts, n - 1) && Enabled(job, r, acts[n - 1])
    ensures After(job, store0, acts, n) == Step(job, r, acts[n - 1])
  {
    r := After(job, store0, acts, n - 1);
  }

  lemma {:induction false} ReportHolds<C>(job: Job, store0: Store<C>, acts: seq<Action>, n: nat)
    requires job.Proper() && job.Lists(store0) && n <= |acts| && Runs(job, store0, acts, n)
    ensures ReportOk(job, acts, n, After(job, store0, acts, n))
  {
    if n == 0 {
      ReportStart(job, store0, acts);
    } else {
      ReportHolds(job, store0, acts, n - 1);
      var r := LastTurn(job, store0, acts, n);
      ReportStep(job, acts, n - 1, r);
    }
  }

  /**
   At every point of every schedule the failure list names no key twice, and names listed keys only, each with the key it
   was to move to. A key is named for its copy exactly when its copy call threw, and for its delete exactly when its
   delete call threw.
   */
  lemma ReportIsExact<C>(job: Job, store0: Store<C>, acts: seq<Action>, n: nat)
    requires job.Proper() && job.Lists(store0) && n <= |acts| && Runs(job, store0, acts, n)
    ensures
      var failed := After(job, store0, acts, n).failed;
      && (forall x, y :: 0 <= x < y < |failed| ==> failed[x].sourceKey != failed[y].sourceKey)
      && (forall f :: f in failed ==> f.sourceKey in job.keys && f.destinationKey == job.target + f.sourceKey[|job.source|..])
      && (forall i :: 0 <= i < |job.keys| ==>
            && ((exists f :: f in failed && f.sourceKey == job.keys[i] && f.copyStage) <==>
                Taken(acts, n, Copy(i, LostRequest)) || Taken(acts, n, Copy(i, LostResponse)))
            && ((exists f :: f in failed && f.sourceKey == job.keys[i] && !f.copyStage) <==>
                Taken(acts, n, Delete(i, LostRequest)) || Taken(acts, n, Delete(i, LostResponse))))
  {
    ReportHolds(job, store0, acts, n);
    var r := After(job, store0, acts, n);
    forall i, copyStage | 0 <= i < |job.keys|
      ensures (exists f :: f in r.failed && f.sourceKey == job.keys[i] && f.copyStage == copyStage) <==> Reported(job, r, i, copyStage)
    {
      if Reported(job, r, i, copyStage) {
        assert Failure(job.keys[i], job.target + job.keys[i][|job.source|..], copyStage).sourceKey == job.keys[i];
      }
    }
  }

  /**
   Once the mappers have finished: a listed key is absent from the failure list exactly when its delete call succeeded. If
   no destination was a listed key, its object has then left the old key and is at the new one, and a key named for its
   copy still has its object.
   */
  lemma UnreportedIffMoved<C>(job: Job, store0: Store<C>, acts: seq<Action>, n: nat, i: nat)
    requires job.Proper() && job.Lists(store0) && n <= |acts| && Runs(job, store0, acts, n)
    requires Finished(After(job, store0, acts, n)) && i < |job.keys|
    ensures
      var r, k := After(job, store0, acts, n), job.keys[i];
      var d := job.target + k[|job.source|..];
      && ((forall f :: f in r.failed ==> f.sourceKey != k) <==> Taken(acts, n, Delete(i, Ok)))
      && (job.Disjoint() && Taken(acts, n, Delete(i, Ok)) ==> k !in r.store && d in r.store && r.store[d] == store0[k])
      && (job.Disjoint() && Failure(k, d, true) in r.failed ==> k in r.store && r.store[k] == store0[k])
      && (job.Disjoint() && Failure(k, d, false) in r.failed ==> d in r.store && r.store[d] == store0[k])
  {
    ReportHolds(job, store0, acts, n);
    var r, k := After(job, store0, acts, n), job.keys[i];
    assert !r.phase[i].Waiting? && !r.phase[i].Copied?;
    if exists f :: f in r.failed && f.sourceKey == k {
      var f :| f in r.failed && f.sourceKey == k;
      assert Reported(job, r, i, f.copyStage);
    }
    if job.Disjoint() {
      StoreHolds(job, store0, acts, n);
      assert KeyOk(job, store0, r.store, i, r.phase[i]);
    }
  }
}
