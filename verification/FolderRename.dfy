/**
 Folder rename on a key -> content store. The mappers of a rename run concurrently; the model interleaves
 their S3 calls and bookkeeping turns in any order, with any call failing before or after taking effect.
 */
module FolderRename {
  import opened Base
  import opened Paths

  type Key = string
  type Store<C> = map<Key, C>

  predicate Under(prefix: string, k: Key) {
    prefix <= k
  }

  function Destination(source: string, target: string, k: Key): Key
    requires Under(source, k)
  {
    target + k[|source|..]
  }

  /** What a call does: it succeeds, or it throws before or after taking effect. */
  datatype Fault = Ok | LostRequest | LostResponse

  datatype Phase = Waiting | Copied | Moved | CopyFailed | DeleteFailed

  datatype Failure = Failure(sourceKey: Key, destinationKey: Key, copyStage: bool)

  datatype Progress = Progress(total: nat, processed: nat, copied: nat, deleted: nat, failed: nat)

  /** The rename in flight: the store, where each key's mapper stands, and the shared counters. */
  datatype Rename<C> = Rename(
    store: Store<C>,
    phase: seq<Phase>,
    copied: nat,
    deleted: nat,
    failed: seq<Failure>,
    progress: Progress,
    reports: seq<Progress>)

  /** The prefixes of a rename and the listed keys. */
  datatype Job = Job(source: string, target: string, keys: seq<Key>)
  {
    predicate Proper() {
      && source != target
      && (forall i :: 0 <= i < |keys| ==> Under(source, keys[i]))
      && (forall i, j :: 0 <= i < j < |keys| ==> keys[i] != keys[j])
    }

    function To(i: nat): Key
      requires i < |keys| && Under(source, keys[i])
    {
      Destination(source, target, keys[i])
    }

    /** No destination is itself a listed key. */
    ghost predicate Disjoint()
      requires Proper()
    {
      forall i, j :: 0 <= i < |keys| && 0 <= j < |keys| ==> To(i) != keys[j]
    }

    /** The keys are the listing of the source prefix. */
    ghost predicate Lists<C>(store: Store<C>) {
      && (forall i :: 0 <= i < |keys| ==> keys[i] in store)
      && (forall k :: k in store && Under(source, k) ==> k in keys)
    }
  }

  datatype Action = Copy(i: nat, fault: Fault) | Delete(i: nat, fault: Fault)

  predicate Enabled<C>(job: Job, r: Rename<C>, a: Action) {
    && |r.phase| == |job.keys|
    && a.i < |job.keys|
    && Under(job.source, job.keys[a.i])
    && (a.Copy? ==> r.phase[a.i].Waiting?)
    && (a.Delete? ==> r.phase[a.i].Copied?)
  }

  function Report<C>(r: Rename<C>, p: Progress): Rename<C> {
    r.(progress := p, reports := r.reports + [p])
  }

  function Fails<C>(job: Job, r: Rename<C>, i: nat, copyStage: bool): Rename<C>
    requires i < |job.keys| == |r.phase| && Under(job.source, job.keys[i])
  {
    var p := r.progress.(failed := r.progress.failed + 1, processed := r.progress.processed + 1);
    Report(r.(phase := r.phase[i := if copyStage then CopyFailed else DeleteFailed],
              failed := r.failed + [Failure(job.keys[i], job.To(i), copyStage)]), p)
  }

  /** CopyObject and the bookkeeping after it. A copy whose source is missing throws. */
  function CopyStep<C>(job: Job, r: Rename<C>, i: nat, fault: Fault): Rename<C>
    requires Enabled(job, r, Copy(i, fault))
  {
    var k := job.keys[i];
    if k !in r.store || fault.LostRequest? then Fails(job, r, i, true)
    else
      var s := r.(store := r.store[job.To(i) := r.store[k]]);
      if fault.LostResponse? then Fails(job, s, i, true)
      else s.(phase := r.phase[i := Copied], copied := r.copied + 1,
              progress := r.progress.(copied := r.progress.copied + 1))
  }

  /** DeleteObject and the bookkeeping after it. Deleting a missing key succeeds. */
  function DeleteStep<C>(job: Job, r: Rename<C>, i: nat, fault: Fault): Rename<C>
    requires Enabled(job, r, Delete(i, fault))
  {
    if fault.LostRequest? then Fails(job, r, i, false)
    else
      var s := r.(store := r.store - {job.keys[i]});
      if fault.LostResponse? then Fails(job, s, i, false)
      else
        var p := r.progress.(deleted := r.progress.deleted + 1, processed := r.progress.processed + 1);
        Report(s.(phase := r.phase[i := Moved], deleted := r.deleted + 1), p)
  }

  function Step<C>(job: Job, r: Rename<C>, a: Action): Rename<C>
    requires Enabled(job, r, a)
  {
    match a
    case Copy(i, fault) => CopyStep(job, r, i, fault)
    case Delete(i, fault) => DeleteStep(job, r, i, fault)
  }

  function Start<C>(job: Job, store: Store<C>): Rename<C> {
    var p := Progress(|job.keys|, 0, 0, 0, 0);
    Rename(store, seq(|job.keys|, _ => Waiting), 0, 0, [], p, [p])
  }

  /** The rename after the first `n` actions of a schedule. */
  function After<C>(job: Job, store: Store<C>, acts: seq<Action>, n: nat): Rename<C>
    requires n <= |acts| && Runs(job, store, acts, n)
    decreases n, 1
  {
    if n == 0 then Start(job, store) else Step(job, After(job, store, acts, n - 1), acts[n - 1])
  }

  /** The schedule is one the mappers can follow. */
  predicate Runs<C>(job: Job, store: Store<C>, acts: seq<Action>, n: nat)
    requires n <= |acts|
    decreases n, 0
  {
    n == 0 || (Runs(job, store, acts, n - 1) && Enabled(job, After(job, store, acts, n - 1), acts[n - 1]))
  }

  predicate Finished<C>(r: Rename<C>) {
    forall i :: 0 <= i < |r.phase| ==> !r.phase[i].Waiting? && !r.phase[i].Copied?
  }

  // ---------------------------------------------------------------- nothing is lost

  /** What the store says about one listed key, given where its mapper stands. */
  ghost predicate KeyOk<C>(job: Job, store0: Store<C>, store: Store<C>, i: nat, phase: Phase)
    requires job.Proper() && i < |job.keys| && job.keys[i] in store0
  {
    var k, d, v := job.keys[i], job.To(i), store0[job.keys[i]];
    match phase
    case Waiting => k in store && store[k] == v && Same(store0, store, d)
    case Copied => k in store && store[k] == v && d in store && store[d] == v
    case Moved => k !in store && d in store && store[d] == v
    case CopyFailed => k in store && store[k] == v && (Same(store0, store, d) || (d in store && store[d] == v))
    case DeleteFailed => d in store && store[d] == v && (k in store ==> store[k] == v)
  }

  /** The two stores agree on a key. */
  ghost predicate Same<C>(x: Store<C>, y: Store<C>, k: Key) {
    (k in x <==> k in y) && (k in x && k in y ==> x[k] == y[k])
  }

  ghost predicate IsDestination(job: Job, k: Key)
    requires job.Proper()
  {
    exists i :: 0 <= i < |job.keys| && job.To(i) == k
  }

  ghost predicate StoreOk<C>(job: Job, store0: Store<C>, r: Rename<C>)
    requires job.Proper() && job.Lists(store0)
  {
    && |r.phase| == |job.keys|
    && (forall i :: 0 <= i < |job.keys| ==> KeyOk(job, store0, r.store, i, r.phase[i]))
    && (forall k :: k !in job.keys && !IsDestination(job, k) ==> Same(store0, r.store, k))
  }

  /** Distinct keys have distinct destinations. */
  lemma DestinationsDistinct(job: Job, i: nat, j: nat)
    requires job.Proper() && i < |job.keys| && j < |job.keys| && i != j
    ensures job.To(i) != job.To(j)
  {
    var x, y := job.keys[i], job.keys[j];
    assert x == job.source + x[|job.source|..] && y == job.source + y[|job.source|..];
    assert job.To(i)[|job.target|..] == x[|job.source|..] && job.To(j)[|job.target|..] == y[|job.source|..];
  }

  /** A mapper's turn does not disturb another key. */
  lemma OtherKeyOk<C>(job: Job, store0: Store<C>, r: Rename<C>, a: Action, j: nat)
    requires job.Proper() && job.Lists(store0) && job.Disjoint() && StoreOk(job, store0, r) && Enabled(job, r, a)
    requires j < |job.keys| && j != a.i
    ensures Step(job, r, a).phase[j] == r.phase[j]
    ensures KeyOk(job, store0, Step(job, r, a).store, j, r.phase[j])
  {
    DestinationsDistinct(job, a.i, j);
    assert KeyOk(job, store0, r.store, j, r.phase[j]);
    assert job.To(j) != job.keys[a.i] && job.To(a.i) != job.keys[j] && job.keys[j] != job.keys[a.i];
  }

  lemma OwnKeyOk<C>(job: Job, store0: Store<C>, r: Rename<C>, a: Action)
    requires job.Proper() && job.Lists(store0) && job.Disjoint() && StoreOk(job, store0, r) && Enabled(job, r, a)
    ensures KeyOk(job, store0, Step(job, r, a).store, a.i, Step(job, r, a).phase[a.i])
  {
    assert KeyOk(job, store0, r.store, a.i, r.phase[a.i]);
    assert job.To(a.i) != job.keys[a.i];
  }

  lemma StoreStep<C>(job: Job, store0: Store<C>, r: Rename<C>, a: Action)
    requires job.Proper() && job.Lists(store0) && job.Disjoint() && StoreOk(job, store0, r) && Enabled(job, r, a)
    ensures StoreOk(job, store0, Step(job, r, a))
  {
    var t := Step(job, r, a);
    forall j | 0 <= j < |job.keys|
      ensures KeyOk(job, store0, t.store, j, t.phase[j])
    {
      if j == a.i { OwnKeyOk(job, store0, r, a); } else { OtherKeyOk(job, store0, r, a, j); }
    }
    forall k | k !in job.keys && !IsDestination(job, k)
      ensures Same(store0, t.store, k)
    {
      assert Same(store0, r.store, k);
      assert job.keys[a.i] != k && job.To(a.i) != k;
    }
  }

  lemma {:induction false} StoreHolds<C>(job: Job, store0: Store<C>, acts: seq<Action>, n: nat)
    requires job.Proper() && job.Lists(store0) && job.Disjoint() && n <= |acts| && Runs(job, store0, acts, n)
    ensures StoreOk(job, store0, After(job, store0, acts, n))
  {
    if n == 0 {
    } else {
      StoreHolds(job, store0, acts, n - 1);
      StoreStep(job, store0, After(job, store0, acts, n - 1), acts[n - 1]);
    }
  }

  /**
   Rename loses nothing. At every point of every schedule, with any calls failing before or after taking
   effect: the content of each listed object is at its old or at its new key, and every key that is neither a
   source nor a destination is as it was.
   */
  lemma RenameLosesNothing<C>(job: Job, store0: Store<C>, acts: seq<Action>, n: nat)
    requires job.Proper() && job.Lists(store0) && job.Disjoint() && n <= |acts| && Runs(job, store0, acts, n)
    ensures
      var store := After(job, store0, acts, n).store;
      && (forall i :: 0 <= i < |job.keys| ==>
            || (job.keys[i] in store && store[job.keys[i]] == store0[job.keys[i]])
            || (job.To(i) in store && store[job.To(i)] == store0[job.keys[i]]))
      && (forall k :: k !in job.keys && !IsDestination(job, k) ==> Same(store0, store, k))
  {
    StoreHolds(job, store0, acts, n);
    var r := After(job, store0, acts, n);
    forall i | 0 <= i < |job.keys|
      ensures || (job.keys[i] in r.store && r.store[job.keys[i]] == store0[job.keys[i]])
              || (job.To(i) in r.store && r.store[job.To(i)] == store0[job.keys[i]])
    {
      assert KeyOk(job, store0, r.store, i, r.phase[i]);
    }
  }

  // ---------------------------------------------------------------- the counters

  function PhaseCount(phase: seq<Phase>, p: Phase): nat {
    multiset(phase)[p]
  }

  function DeleteFailures(failed: seq<Failure>): nat {
    if failed == [] then 0
    else DeleteFailures(failed[..|failed| - 1]) + if failed[|failed| - 1].copyStage then 0 else 1
  }

  ghost predicate CountersOk<C>(job: Job, r: Rename<C>) {
    var moved, copyFailed, deleteFailed :=
      PhaseCount(r.phase, Moved), PhaseCount(r.phase, CopyFailed), PhaseCount(r.phase, DeleteFailed);
    && r.deleted == moved
    && r.copied == PhaseCount(r.phase, Copied) + moved + deleteFailed
    && |r.failed| == copyFailed + deleteFailed
    && DeleteFailures(r.failed) == deleteFailed
    && r.progress == Progress(|job.keys|, moved + copyFailed + deleteFailed, r.copied, moved, |r.failed|)
    && (forall i :: 0 <= i < |r.reports| ==>
          r.reports[i].processed == r.reports[i].deleted + r.reports[i].failed && r.reports[i].total == |job.keys|)
  }

  lemma FlipPhase(phase: seq<Phase>, i: nat, p: Phase)
    requires i < |phase| && phase[i] != p
    ensures PhaseCount(phase[i := p], p) == PhaseCount(phase, p) + 1
    ensures PhaseCount(phase[i := p], phase[i]) == PhaseCount(phase, phase[i]) - 1
    ensures forall q :: q != p && q != phase[i] ==> PhaseCount(phase[i := p], q) == PhaseCount(phase, q)
  {
    assert multiset(phase[i := p]) == multiset(phase) - multiset{phase[i]} + multiset{p};
    assert phase[i] in multiset(phase);
  }

  lemma AnotherFailure(failed: seq<Failure>, f: Failure)
    ensures DeleteFailures(failed + [f]) == DeleteFailures(failed) + if f.copyStage then 0 else 1
  {
    assert (failed + [f])[..|failed|] == failed;
  }

  lemma FailCounters<C>(job: Job, r: Rename<C>, s: Rename<C>, i: nat, copyStage: bool)
    requires CountersOk(job, r) && s == r.(store := s.store) && i < |job.keys| == |r.phase| && Under(job.source, job.keys[i])
    requires r.phase[i] == if copyStage then Waiting else Copied
    ensures CountersOk(job, Fails(job, s, i, copyStage))
  {
    FlipPhase(r.phase, i, if copyStage then CopyFailed else DeleteFailed);
    AnotherFailure(r.failed, Failure(job.keys[i], job.To(i), copyStage));
  }

  lemma CopyCounters<C>(job: Job, r: Rename<C>, i: nat, fault: Fault)
    requires CountersOk(job, r) && Enabled(job, r, Copy(i, fault))
    ensures CountersOk(job, CopyStep(job, r, i, fault))
  {
    var k := job.keys[i];
    if k !in r.store || fault.LostRequest? {
      FailCounters(job, r, r, i, true);
    } else if fault.LostResponse? {
      FailCounters(job, r, r.(store := r.store[job.To(i) := r.store[k]]), i, true);
    } else {
      FlipPhase(r.phase, i, Copied);
    }
  }

  lemma DeleteCounters<C>(job: Job, r: Rename<C>, i: nat, fault: Fault)
    requires CountersOk(job, r) && Enabled(job, r, Delete(i, fault))
    ensures CountersOk(job, DeleteStep(job, r, i, fault))
  {
    if fault.LostRequest? {
      FailCounters(job, r, r, i, false);
    } else if fault.LostResponse? {
      FailCounters(job, r, r.(store := r.store - {job.keys[i]}), i, false);
    } else {
      FlipPhase(r.phase, i, Moved);
    }
  }

  lemma CountersStep<C>(job: Job, r: Rename<C>, a: Action)
    requires CountersOk(job, r) && Enabled(job, r, a)
    ensures CountersOk(job, Step(job, r, a))
  {
    match a {
      case Copy(i, fault) => CopyCounters(job, r, i, fault);
      case Delete(i, fault) => DeleteCounters(job, r, i, fault);
    }
  }

  lemma {:induction false} CountersHold<C>(job: Job, store0: Store<C>, acts: seq<Action>, n: nat)
    requires job.Proper() && n <= |acts| && Runs(job, store0, acts, n)
    ensures CountersOk(job, After(job, store0, acts, n))
    ensures |After(job, store0, acts, n).phase| == |job.keys|
  {
    if n > 0 {
      CountersHold(job, store0, acts, n - 1);
      CountersStep(job, After(job, store0, acts, n - 1), acts[n - 1]);
    } else {
      var phase := Start(job, store0).phase;
      forall p | p != Waiting
        ensures PhaseCount(phase, p) == 0
      {
        assert p !in phase && p !in multiset(phase);
      }
    }
  }

  lemma {:induction false} PhasesAddUp(phase: seq<Phase>)
    ensures PhaseCount(phase, Waiting) + PhaseCount(phase, Copied) + PhaseCount(phase, Moved)
            + PhaseCount(phase, CopyFailed) + PhaseCount(phase, DeleteFailed) == |phase|
  {
    if phase == [] {
    } else {
      var rest := phase[1..];
      PhasesAddUp(rest);
      assert phase == [phase[0]] + rest;
      assert multiset(phase) == multiset{phase[0]} + multiset(rest);
      assert forall p :: PhaseCount(phase, p) == PhaseCount(rest, p) + if p == phase[0] then 1 else 0;
    }
  }

  lemma FinishedCounts(phase: seq<Phase>)
    requires forall i :: 0 <= i < |phase| ==> !phase[i].Waiting? && !phase[i].Copied?
    ensures PhaseCount(phase, Waiting) == 0 && PhaseCount(phase, Copied) == 0
  {
    assert Waiting !in phase && Copied !in phase;
    assert Waiting !in multiset(phase) && Copied !in multiset(phase);
  }

  /**
   Accounting. Every progress callback has processed = deleted + failed; a finished rename has
   deleted + |failed| = total and copied = deleted + failures in the delete stage.
   */
  lemma RenameAddsUp<C>(job: Job, store0: Store<C>, acts: seq<Action>, n: nat)
    requires job.Proper() && n <= |acts| && Runs(job, store0, acts, n)
    ensures
      var r := After(job, store0, acts, n);
      && (forall i :: 0 <= i < |r.reports| ==> r.reports[i].processed == r.reports[i].deleted + r.reports[i].failed)
      && r.progress.deleted == r.deleted && r.progress.copied == r.copied && r.progress.failed == |r.failed|
      && (Finished(r) ==>
            && r.deleted + |r.failed| == |job.keys| == r.progress.processed == r.progress.total
            && r.copied == r.deleted + DeleteFailures(r.failed))
  {
    CountersHold(job, store0, acts, n);
    var r := After(job, store0, acts, n);
    PhasesAddUp(r.phase);
    if Finished(r) { FinishedCounts(r.phase); }
  }

  // ---------------------------------------------------------------- the exact move

  /** The keys that stay and the keys that arrive. */
  ghost function Staying<C>(store: Store<C>, source: string): set<Key> {
    set k | k in store && !Under(source, k)
  }

  ghost function Arriving<C>(store: Store<C>, source: string, target: string): set<Key> {
    set k | k in store && Under(source, k) :: Destination(source, target, k)
  }

  /** The key that moves to `k`. */
  function Origin(source: string, target: string, k: Key): Key
    requires Under(target, k)
  {
    source + k[|target|..]
  }

  lemma OriginOfDestination(source: string, target: string, k: Key)
    requires Under(source, k)
    ensures Under(target, Destination(source, target, k))
    ensures Origin(source, target, Destination(source, target, k)) == k
  {
    var d := Destination(source, target, k);
    assert d[|target|..] == k[|source|..];
    assert k == source + k[|source|..];
  }

  lemma ArrivingHasOrigin<C>(store: Store<C>, source: string, target: string)
    ensures forall k :: k in Arriving(store, source, target) ==> Under(target, k) && Origin(source, target, k) in store
  {
    forall k | k in Arriving(store, source, target)
      ensures Under(target, k) && Origin(source, target, k) in store
    {
      var from :| from in store && Under(source, from) && Destination(source, target, from) == k;
      OriginOfDestination(source, target, from);
    }
  }

  /** The store in which every key S+s is replaced by T+s. */
  ghost function ExactMove<C>(store: Store<C>, source: string, target: string): Store<C> {
    ArrivingHasOrigin(store, source, target);
    map k | k in Staying(store, source) + Arriving(store, source, target) ::
      if Under(target, k) && Origin(source, target, k) in store then store[Origin(source, target, k)] else store[k]
  }

  lemma DestinationOfOrigin(source: string, target: string, k: Key)
    requires Under(target, k)
    ensures Under(source, Origin(source, target, k))
    ensures Destination(source, target, Origin(source, target, k)) == k
  {
    OriginOfDestination(target, source, k);
  }

  /** `ExactMove` says what it should: T+s holds what S+s held, and all other keys keep their content or go. */
  lemma ExactMoveMeaning<C>(store: Store<C>, source: string, target: string, k: Key)
    ensures
      var moved := ExactMove(store, source, target);
      && (k in store && Under(source, k) ==>
            Destination(source, target, k) in moved && moved[Destination(source, target, k)] == store[k])
      && (!(Under(target, k) && Origin(source, target, k) in store) ==>
            && (k in moved <==> k in store && !Under(source, k))
            && (k in moved ==> moved[k] == store[k]))
  {
    if k in store && Under(source, k) {
      OriginOfDestination(source, target, k);
      assert Destination(source, target, k) in Arriving(store, source, target);
    }
    if k in Arriving(store, source, target) {
      var from :| from in store && Under(source, from) && Destination(source, target, from) == k;
      OriginOfDestination(source, target, from);
    }
  }

  /** A finished rename that reports no failure has moved the folder exactly. */
  lemma CleanRenameIsExact<C>(job: Job, store0: Store<C>, acts: seq<Action>, n: nat)
    requires job.Proper() && job.Lists(store0) && job.Disjoint() && n <= |acts| && Runs(job, store0, acts, n)
    requires Finished(After(job, store0, acts, n)) && After(job, store0, acts, n).failed == []
    ensures After(job, store0, acts, n).store == ExactMove(store0, job.source, job.target)
  {
    StoreHolds(job, store0, acts, n);
    CountersHold(job, store0, acts, n);
    var r := After(job, store0, acts, n);
    NoFailurePhases(r.phase);
    AllMoved(job, store0, r);
  }

  lemma NoFailurePhases(phase: seq<Phase>)
    requires PhaseCount(phase, CopyFailed) == 0 && PhaseCount(phase, DeleteFailed) == 0
    requires forall i :: 0 <= i < |phase| ==> !phase[i].Waiting? && !phase[i].Copied?
    ensures forall i :: 0 <= i < |phase| ==> phase[i].Moved?
  {
    forall i | 0 <= i < |phase|
      ensures phase[i].Moved?
    {
      assert phase[i] in multiset(phase);
    }
  }

  lemma AllMoved<C>(job: Job, store0: Store<C>, r: Rename<C>)
    requires job.Proper() && job.Lists(store0) && job.Disjoint() && StoreOk(job, store0, r)
    requires forall i :: 0 <= i < |job.keys| ==> r.phase[i].Moved?
    ensures r.store == ExactMove(store0, job.source, job.target)
  {
    var moved := ExactMove(store0, job.source, job.target);
    forall k: Key
      ensures Same(r.store, moved, k)
    {
      AllMovedAt(job, store0, r, k);
    }
    SameStores(r.store, moved);
  }

  lemma SameStores<C>(x: Store<C>, y: Store<C>)
    requires forall k: Key :: Same(x, y, k)
    ensures x == y
  {
    forall k: Key
      ensures k in x <==> k in y
      ensures k in x ==> x[k] == y[k]
    {
      assert Same(x, y, k);
    }
  }

  lemma AllMovedAt<C>(job: Job, store0: Store<C>, r: Rename<C>, k: Key)
    requires job.Proper() && job.Lists(store0) && job.Disjoint() && StoreOk(job, store0, r)
    requires forall i :: 0 <= i < |job.keys| ==> r.phase[i].Moved?
    ensures Same(r.store, ExactMove(store0, job.source, job.target), k)
  {
    ExactMoveMeaning(store0, job.source, job.target, k);
    if IsDestination(job, k) {
      var i :| 0 <= i < |job.keys| && job.To(i) == k;
      assert KeyOk(job, store0, r.store, i, r.phase[i]);
      OriginOfDestination(job.source, job.target, job.keys[i]);
      ExactMoveMeaning(store0, job.source, job.target, job.keys[i]);
    } else {
      if Under(job.target, k) && Origin(job.source, job.target, k) in store0 {
        DestinationOfOrigin(job.source, job.target, k);
        var i :| 0 <= i < |job.keys| && job.keys[i] == Origin(job.source, job.target, k);
        assert IsDestination(job, k) by { assert job.To(i) == k; }
      }
      if k in job.keys {
        var i :| 0 <= i < |job.keys| && job.keys[i] == k;
        assert KeyOk(job, store0, r.store, i, r.phase[i]);
      } else {
        assert Same(store0, r.store, k);
      }
    }
  }

  // ---------------------------------------------------------------- round trip

  ghost predicate NothingUnder<C>(store: Store<C>, prefix: string) {
    forall k :: k in store ==> !Under(prefix, k)
  }

  /** Moving S to an empty T and back again restores the store. */
  lemma MoveBack<C>(store: Store<C>, source: string, target: string)
    requires NothingUnder(store, target)
    ensures ExactMove(ExactMove(store, source, target), target, source) == store
  {
    var there := ExactMove(store, source, target);
    var back := ExactMove(there, target, source);
    forall k: Key
      ensures Same(store, back, k)
    {
      MoveBackAt(store, source, target, k);
    }
    SameStores(store, back);
  }

  lemma MoveBackAt<C>(store: Store<C>, source: string, target: string, k: Key)
    requires NothingUnder(store, target)
    ensures Same(store, ExactMove(ExactMove(store, source, target), target, source), k)
  {
    var there := ExactMove(store, source, target);
    ExactMoveMeaning(there, target, source, k);
    ExactMoveMeaning(store, source, target, k);
    if Under(source, k) {
      var d := Destination(source, target, k);
      OriginOfDestination(source, target, k);
      ExactMoveMeaning(store, source, target, d);
      ExactMoveMeaning(there, target, source, d);
      assert Origin(target, source, k) == d;
      assert d !in store;
    }
  }

  /** A listing of a prefix of a store without anything under the target needs no further condition. */
  lemma EmptyTargetIsDisjoint<C>(job: Job, store: Store<C>)
    requires job.Proper() && job.Lists(store) && NothingUnder(store, job.target)
    ensures job.Disjoint()
  {
  }

  lemma TwoPrefixes(a: string, b: string, k: Key)
    requires Under(a, k) && Under(b, k)
    ensures Under(a, b) || Under(b, a)
  {
    assert a == k[..|a|] && b == k[..|b|];
  }
}
