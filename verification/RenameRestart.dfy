/**
 Rename across crashes and back: killing a rename anywhere and running it again, and renaming there and back.
 */
module RenameRestart {
  import opened FolderRename

  // ---------------------------------------------------------------- stores a crash can leave

  /** What the crash left of one source key: still at its old key, or gone and at its new one. */
  ghost predicate HalfMoved<C>(store0: Store<C>, store: Store<C>, source: string, target: string, k: Key)
    requires Under(source, k) && k in store0
  {
    var d := Destination(source, target, k);
    || (k in store && store[k] == store0[k] && (Same(store0, store, d) || (d in store && store[d] == store0[k])))
    || (k !in store && d in store && store[d] == store0[k])
  }

  /** Every source key is half moved, and every key that is neither source nor destination is untouched. */
  ghost predicate Interrupted<C>(store0: Store<C>, store: Store<C>, source: string, target: string) {
    && (forall k :: k in store0 && Under(source, k) ==> HalfMoved(store0, store, source, target, k))
    && (forall k: Key ::
          !(k in store0 && Under(source, k)) && !(Under(target, k) && Origin(source, target, k) in store0)
          ==> Same(store0, store, k))
  }

  /** Neither prefix lies under the other. */
  predicate Independent(source: string, target: string) {
    !Under(source, target) && !Under(target, source)
  }

  /** Independent prefixes have no key in common, so no destination is ever a source. */
  lemma IndependentIsDisjoint(job: Job)
    requires job.Proper() && Independent(job.source, job.target)
    ensures job.Disjoint()
  {
    forall i, j | 0 <= i < |job.keys| && 0 <= j < |job.keys|
      ensures job.To(i) != job.keys[j]
    {
      if job.To(i) == job.keys[j] {
        TwoPrefixes(job.source, job.target, job.To(i));
      }
    }
  }

  /** Whatever point a rename is killed at, the store it leaves is an interrupted one. */
  lemma KilledIsInterrupted<C>(job: Job, store0: Store<C>, acts: seq<Action>, n: nat)
    requires job.Proper() && job.Lists(store0) && job.Disjoint() && n <= |acts| && Runs(job, store0, acts, n)
    ensures Interrupted(store0, After(job, store0, acts, n).store, job.source, job.target)
  {
    StoreHolds(job, store0, acts, n);
    var r := After(job, store0, acts, n);
    forall k | k in store0 && Under(job.source, k)
      ensures HalfMoved(store0, r.store, job.source, job.target, k)
    {
      var i :| 0 <= i < |job.keys| && job.keys[i] == k;
      assert KeyOk(job, store0, r.store, i, r.phase[i]);
    }
    forall k: Key | !(k in store0 && Under(job.source, k)) && !(Under(job.target, k) && Origin(job.source, job.target, k) in store0)
      ensures Same(store0, r.store, k)
    {
      assert k !in job.keys;
      if IsDestination(job, k) {
        var i :| 0 <= i < |job.keys| && job.To(i) == k;
        OriginOfDestination(job.source, job.target, job.keys[i]);
      }
    }
  }

  /** Moving an interrupted store exactly gives what moving the original store gives. */
  lemma InterruptedMovesAlike<C>(store0: Store<C>, store: Store<C>, source: string, target: string)
    requires Independent(source, target) && Interrupted(store0, store, source, target)
    ensures ExactMove(store, source, target) == ExactMove(store0, source, target)
  {
    var x, y := ExactMove(store, source, target), ExactMove(store0, source, target);
    forall k: Key
      ensures Same(x, y, k)
    {
      MovesAlikeAt(store0, store, source, target, k);
    }
    SameStores(x, y);
  }

  lemma MovesAlikeAt<C>(store0: Store<C>, store: Store<C>, source: string, target: string, k: Key)
    requires Independent(source, target) && Interrupted(store0, store, source, target)
    ensures Same(ExactMove(store, source, target), ExactMove(store0, source, target), k)
  {
    ExactMoveMeaning(store, source, target, k);
    ExactMoveMeaning(store0, source, target, k);
    if Under(source, k) {
      if Under(target, k) { TwoPrefixes(source, target, k); }
    } else if Under(target, k) {
      var o := Origin(source, target, k);
      DestinationOfOrigin(source, target, k);
      ExactMoveMeaning(store, source, target, o);
      ExactMoveMeaning(store0, source, target, o);
      if Under(target, o) { TwoPrefixes(source, target, o); }
      if o in store0 {
        assert HalfMoved(store0, store, source, target, o);
      } else {
        assert Same(store0, store, o) && Same(store0, store, k);
      }
    } else {
      assert Same(store0, store, k);
    }
  }

  // ---------------------------------------------------------------- crash and restart

  /** One run of the rename that ended somewhere: its listing and the turns it took. */
  datatype Attempt = Attempt(job: Job, acts: seq<Action>)
  {
    ghost predicate Legal<C>(source: string, target: string, store: Store<C>) {
      && job.source == source && job.target == target
      && job.Proper() && job.Lists(store) && Runs(job, store, acts, |acts|)
    }
  }

  /** The store after the first attempts, each killed where its list of turns ends, each started on what was left. */
  ghost function Left<C>(source: string, target: string, store0: Store<C>, attempts: seq<Attempt>): Store<C>
    requires LegalChain(source, target, store0, attempts)
    decreases |attempts|, 1
  {
    if attempts == [] then store0
    else
      var n := |attempts| - 1;
      After(attempts[n].job, Left(source, target, store0, attempts[..n]), attempts[n].acts, |attempts[n].acts|).store
  }

  ghost predicate LegalChain<C>(source: string, target: string, store0: Store<C>, attempts: seq<Attempt>)
    decreases |attempts|, 0
  {
    attempts == [] ||
    (var n := |attempts| - 1;
     && LegalChain(source, target, store0, attempts[..n])
     && attempts[n].Legal(source, target, Left(source, target, store0, attempts[..n])))
  }

  lemma {:induction false} ChainMovesAlike<C>(source: string, target: string, store0: Store<C>, attempts: seq<Attempt>)
    requires Independent(source, target) && LegalChain(source, target, store0, attempts)
    ensures ExactMove(Left(source, target, store0, attempts), source, target) == ExactMove(store0, source, target)
    decreases |attempts|
  {
    if attempts == [] {
    } else {
      var n := |attempts| - 1;
      ChainMovesAlike(source, target, store0, attempts[..n]);
      var before, last := Left(source, target, store0, attempts[..n]), attempts[n];
      IndependentIsDisjoint(last.job);
      KilledIsInterrupted(last.job, before, last.acts, |last.acts|);
      InterruptedMovesAlike(before, Left(source, target, store0, attempts), source, target);
    }
  }

  /**
   Crash-restart equivalence. However often the rename is killed, wherever, and whatever calls failed before:
   once it runs to the end without a failure, the store is the one an uninterrupted success leaves.
   */
  lemma RestartedRenameIsExact<C>(source: string, target: string, store0: Store<C>, killed: seq<Attempt>, last: Attempt)
    requires Independent(source, target) && LegalChain(source, target, store0, killed)
    requires last.Legal(source, target, Left(source, target, store0, killed))
    requires Finished(After(last.job, Left(source, target, store0, killed), last.acts, |last.acts|))
    requires After(last.job, Left(source, target, store0, killed), last.acts, |last.acts|).failed == []
    ensures After(last.job, Left(source, target, store0, killed), last.acts, |last.acts|).store
            == ExactMove(store0, source, target)
  {
    var store := Left(source, target, store0, killed);
    IndependentIsDisjoint(last.job);
    CleanRenameIsExact(last.job, store, last.acts, |last.acts|);
    ChainMovesAlike(source, target, store0, killed);
  }

  // ---------------------------------------------------------------- exactly when a restart is safe

  /** An attempt that ran to its end without a failure. */
  ghost predicate Clean<C>(source: string, target: string, store: Store<C>, a: Attempt) {
    && a.Legal(source, target, store)
    && Finished(After(a.job, store, a.acts, |a.acts|)) && After(a.job, store, a.acts, |a.acts|).failed == []
  }

  /** The store that an attempt leaves. */
  ghost function Leaves<C>(source: string, target: string, store: Store<C>, a: Attempt): Store<C>
    requires a.Legal(source, target, store)
  {
    After(a.job, store, a.acts, |a.acts|).store
  }

  /** A rename of `store` killed and then re-run to a clean end leaves what the clean, uninterrupted `whole` leaves. */
  ghost predicate SafeFor(source: string, target: string, store: Store<nat>, killed: Attempt, again: Attempt, whole: Attempt) {
    killed.Legal(source, target, store) && Clean(source, target, store, whole)
    && Clean(source, target, Leaves(source, target, store, killed), again)
    ==> Leaves(source, target, Leaves(source, target, store, killed), again) == Leaves(source, target, store, whole)
  }

  /** So it is for every store, wherever the rename is killed and whatever calls failed before. */
  ghost predicate RestartSafe(source: string, target: string) {
    forall store: Store<nat>, killed: Attempt, again: Attempt, whole: Attempt ::
      SafeFor(source, target, store, killed, again, whole)
  }

  /** A store of one object. */
  function Single(k: Key): Store<nat> {
    map[k := 0]
  }

  /** The rename of one object, run to its end. */
  lemma MoveOne(source: string, target: string, k: Key) returns (a: Attempt)
    requires source != target && Under(source, k)
    ensures Clean(source, target, Single(k), a)
    ensures Leaves(source, target, Single(k), a) == Single(Destination(source, target, k))
  {
    var store0 := Single(k);
    var job := Job(source, target, [k]);
    var acts := [Copy(0, Ok), Delete(0, Ok)];
    assert job.Proper() && job.Lists(store0);
    NotOntoItself(job, 0);
    assert Runs(job, store0, acts, 0);
    var r0 := After(job, store0, acts, 0);
    assert Enabled(job, r0, acts[0]);
    assert Runs(job, store0, acts, 1);
    var r1 := After(job, store0, acts, 1);
    assert r1 == CopyStep(job, r0, 0, Ok);
    assert Enabled(job, r1, acts[1]);
    assert Runs(job, store0, acts, 2);
    var r2 := After(job, store0, acts, 2);
    assert r2 == DeleteStep(job, r1, 0, Ok);
    assert r2.store == Single(Destination(source, target, k));
    a := Attempt(job, acts);
  }

  /** An object whose new key lies under the source again is moved once more by a restart. */
  lemma MovedTwice(source: string, target: string, k: Key)
    requires |source| != |target| && Under(source, k) && Under(source, Destination(source, target, k))
    ensures !RestartSafe(source, target)
  {
    var d := Destination(source, target, k);
    var dd := Destination(source, target, d);
    var killed := MoveOne(source, target, k);
    var again := MoveOne(source, target, d);
    assert |dd| == |target| + |d| - |source|;
    assert d in Single(d) && d !in Single(dd);
    assert !SafeFor(source, target, Single(k), killed, again, killed);
  }

  /** If the target lies under the source, a restart moves the moved object once more. */
  lemma TargetInsideSource(source: string, target: string)
    requires source != target && Under(source, target)
    ensures !RestartSafe(source, target)
  {
    assert target == source + target[|source|..];
    assert Destination(source, target, source) == target;
    MovedTwice(source, target, source);
  }

  /** If the source lies under the target, an object can land under the source and be moved once more. */
  lemma SourceInsideTarget(source: string, target: string)
    requires source != target && Under(target, source)
    ensures !RestartSafe(source, target)
  {
    var r := source[|target|..];
    assert source == target + r;
    var k := source + r;
    assert k[|source|..] == r;
    assert Destination(source, target, k) == source;
    MovedTwice(source, target, k);
  }

  lemma IndependentIsSafe(source: string, target: string)
    requires Independent(source, target)
    ensures RestartSafe(source, target)
  {
    forall store: Store<nat>, killed: Attempt, again: Attempt, whole: Attempt
      ensures SafeFor(source, target, store, killed, again, whole)
    {
      if killed.Legal(source, target, store) && Clean(source, target, store, whole)
         && Clean(source, target, Leaves(source, target, store, killed), again)
      {
        var chain := [killed];
        assert chain[..0] == [];
        assert Left(source, target, store, chain) == Leaves(source, target, store, killed);
        RestartedRenameIsExact(source, target, store, chain, again);
        IndependentIsDisjoint(whole.job);
        CleanRenameIsExact(whole.job, store, whole.acts, |whole.acts|);
      }
    }
  }

  /** Restarting a folder rename after a crash is safe exactly when neither prefix lies under the other. */
  lemma RestartSafeIff(source: string, target: string)
    requires source != target
    ensures RestartSafe(source, target) <==> Independent(source, target)
  {
    if Independent(source, target) {
      IndependentIsSafe(source, target);
    } else if Under(source, target) {
      TargetInsideSource(source, target);
    } else {
      SourceInsideTarget(source, target);
    }
  }

  // ---------------------------------------------------------------- there and back

  /** Two clean renames, S -> T and T -> S, restore the store if nothing lay under T. */
  lemma RoundTrip<C>(there: Attempt, back: Attempt, store0: Store<C>)
    requires there.job.Proper() && there.job.Lists(store0) && NothingUnder(store0, there.job.target)
    requires Runs(there.job, store0, there.acts, |there.acts|)
    requires Finished(After(there.job, store0, there.acts, |there.acts|))
    requires After(there.job, store0, there.acts, |there.acts|).failed == []
    requires back.Legal(there.job.target, there.job.source, After(there.job, store0, there.acts, |there.acts|).store)
    requires
      var store1 := After(there.job, store0, there.acts, |there.acts|).store;
      var r := After(back.job, store1, back.acts, |back.acts|);
      Finished(r) && r.failed == []
    ensures
      var store1 := After(there.job, store0, there.acts, |there.acts|).store;
      After(back.job, store1, back.acts, |back.acts|).store == store0
  {
    var store1 := After(there.job, store0, there.acts, |there.acts|).store;
    EmptyTargetIsDisjoint(there.job, store0);
    CleanRenameIsExact(there.job, store0, there.acts, |there.acts|);
    BackIsDisjoint(there.job.source, there.job.target, store0, back.job);
    CleanRenameIsExact(back.job, store1, back.acts, |back.acts|);
    MoveBack(store0, there.job.source, there.job.target);
  }

  /** On the way back no destination is a source: it would have lain under T from the start. */
  lemma BackIsDisjoint<C>(source: string, target: string, store0: Store<C>, back: Job)
    requires NothingUnder(store0, target) && back.Proper() && back.source == target && back.target == source
    requires back.Lists(ExactMove(store0, source, target))
    ensures back.Disjoint()
  {
    forall i, j | 0 <= i < |back.keys| && 0 <= j < |back.keys|
      ensures back.To(i) != back.keys[j]
    {
      var k := back.keys[i];
      ExactMoveMeaning(store0, source, target, k);
      assert Origin(source, target, k) in store0;
      assert back.To(i) == Origin(source, target, k);
    }
  }

  // ---------------------------------------------------------------- exactly when nothing can be lost

  ghost predicate NothingLost<C>(job: Job, store0: Store<C>, store: Store<C>)
    requires job.Proper() && job.Lists(store0)
  {
    forall i :: 0 <= i < |job.keys| ==>
      || (job.keys[i] in store && store[job.keys[i]] == store0[job.keys[i]])
      || (job.To(i) in store && store[job.To(i)] == store0[job.keys[i]])
  }

  /** No schedule and no failing call loses an object's content. */
  ghost predicate LossFree<C>(job: Job, store0: Store<C>)
    requires job.Proper() && job.Lists(store0)
  {
    forall acts: seq<Action> :: Runs(job, store0, acts, |acts|) ==>
      NothingLost(job, store0, After(job, store0, acts, |acts|).store)
  }

  ghost predicate DistinctContents<C>(store: Store<C>) {
    forall x, y :: x in store && y in store && x != y ==> store[x] != store[y]
  }

  /** If a destination is another listed key, copying onto it first destroys that key's content. */
  lemma OverwritingLoses<C>(job: Job, store0: Store<C>, i: nat, j: nat)
    requires job.Proper() && job.Lists(store0) && DistinctContents(store0)
    requires i < |job.keys| && j < |job.keys| && job.To(i) == job.keys[j]
    ensures !LossFree(job, store0)
  {
    NotOntoItself(job, i);
    NotOntoItself(job, j);
    var acts := [Copy(i, Ok)];
    assert Runs(job, store0, acts, 0);
    var r0 := After(job, store0, acts, 0);
    assert Enabled(job, r0, acts[0]);
    assert Runs(job, store0, acts, |acts|);
    var r1 := After(job, store0, acts, |acts|);
    assert r1.store == store0[job.keys[j] := store0[job.keys[i]]];
    assert !NothingLost(job, store0, r1.store);
  }

  lemma NotOntoItself(job: Job, i: nat)
    requires job.Proper() && i < |job.keys|
    ensures job.To(i) != job.keys[i]
  {
    var k := job.keys[i];
    assert k == job.source + k[|job.source|..];
    assert job.To(i)[..|job.target|] == job.target && k[..|job.source|] == job.source;
    assert |job.To(i)| == |job.target| + |k| - |job.source|;
  }

  /** For contents that can be told apart, a rename is free of loss exactly when no destination is a listed key. */
  lemma LossFreeIffDisjoint<C>(job: Job, store0: Store<C>)
    requires job.Proper() && job.Lists(store0) && DistinctContents(store0)
    ensures LossFree(job, store0) <==> job.Disjoint()
  {
    if job.Disjoint() {
      forall acts: seq<Action> | Runs(job, store0, acts, |acts|)
        ensures NothingLost(job, store0, After(job, store0, acts, |acts|).store)
      {
        RenameLosesNothing(job, store0, acts, |acts|);
      }
    } else {
      var i, j :| 0 <= i < |job.keys| && 0 <= j < |job.keys| && job.To(i) == job.keys[j];
      OverwritingLoses(job, store0, i, j);
    }
  }
}
