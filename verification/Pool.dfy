/**
 The shared-cursor worker pool (`mapWithConcurrency`): workers take the next index from one cursor, run the mapper
 on it and write its result to that index. A turn is what one worker does between two awaits; any worker whose turn
 is enabled may go next.
 */
module Pool {
  import opened Base

  /** `None` among the items is JavaScript's `undefined`, which the pool skips. */
  datatype Task<!T, R> = Task(items: seq<Option<T>>, concurrency: int, mapper: (T, nat) -> R)
  {
    function Workers(): nat {
      Max(1, Min(concurrency, if items == [] then 1 else |items|))
    }

    predicate Defined(i: nat) {
      i < |items| && items[i].Some?
    }
  }

  datatype Slot = Ready | Busy(index: nat) | Done | Dead

  /** `starts` records which worker took which index, in order. */
  datatype State<R> = State(cursor: nat, slots: seq<Slot>, result: seq<Option<R>>, starts: seq<(nat, nat)>)

  datatype Turn = Take(w: nat) | Finish(w: nat) | Throw(w: nat)

  function Start<T, R>(task: Task<T, R>): State<R> {
    State(0, seq(task.Workers(), _ => Ready), seq(|task.items|, _ => None), [])
  }

  predicate Enabled<R>(s: State<R>, a: Turn) {
    a.w < |s.slots| && if a.Take? then s.slots[a.w].Ready? else s.slots[a.w].Busy?
  }

  function Apply<T, R>(task: Task<T, R>, s: State<R>, a: Turn): State<R>
    requires Enabled(s, a)
  {
    match a
    case Take(w) =>
      var index := s.cursor;
      var moved := s.(cursor := s.cursor + 1);
      if index >= |task.items| then moved.(slots := s.slots[w := Done])
      else if task.items[index].None? then moved
      else moved.(slots := s.slots[w := Busy(index)], starts := s.starts + [(w, index)])
    case Finish(w) =>
      var i := s.slots[w].index;
      if task.Defined(i) && i < |s.result| then
        s.(slots := s.slots[w := Ready], result := s.result[i := Some(task.mapper(task.items[i].value, i))])
      else s
    case Throw(w) => s.(slots := s.slots[w := Dead])
  }

  // ---------------------------------------------------------------- invariant

  /** The defined indices below `k`, in order. */
  function DefinedBelow<T, R>(task: Task<T, R>, k: nat): seq<nat>
    requires k <= |task.items|
  {
    if k == 0 then []
    else DefinedBelow(task, k - 1) + (if task.items[k - 1].Some? then [k - 1] else [])
  }

  function Indices(starts: seq<(nat, nat)>): seq<nat> {
    seq(|starts|, i requires 0 <= i < |starts| => starts[i].1)
  }

  ghost predicate Held(slots: seq<Slot>, i: nat) {
    exists w: nat :: w < |slots| && slots[w] == Busy(i)
  }

  ghost predicate NoneDead(slots: seq<Slot>) {
    forall w :: 0 <= w < |slots| ==> !slots[w].Dead?
  }

  /** What the state says about index `i`. */
  ghost predicate IndexOk<T, R>(task: Task<T, R>, s: State<R>, i: nat)
    requires i < |task.items| == |s.result|
  {
    && (s.result[i].Some? ==> task.Defined(i) && i < s.cursor && s.result[i].value == task.mapper(task.items[i].value, i))
    && (task.Defined(i) && i < s.cursor && s.result[i].None? && NoneDead(s.slots) ==>
          Held(s.slots, i))
  }

  ghost predicate Inv<T, R>(task: Task<T, R>, s: State<R>) {
    && |s.slots| == task.Workers() && |s.result| == |task.items|
    && (forall i: nat :: i < |task.items| ==> IndexOk(task, s, i))
    && (forall w :: 0 <= w < |s.slots| && s.slots[w].Busy? ==>
          var i := s.slots[w].index;
          task.Defined(i) && i < s.cursor && s.result[i].None?)
    && (forall v, w :: 0 <= v < w < |s.slots| && s.slots[v].Busy? && s.slots[w].Busy? ==> s.slots[v].index != s.slots[w].index)
    && (forall w :: 0 <= w < |s.slots| && s.slots[w].Done? ==> s.cursor >= |task.items|)
    && Indices(s.starts) == DefinedBelow(task, Min(s.cursor, |task.items|))
  }

  lemma InvStart<T, R>(task: Task<T, R>)
    ensures Inv(task, Start(task))
  {
    assert Indices([]) == [];
  }

  lemma InvTake<T, R>(task: Task<T, R>, s: State<R>, w: nat)
    requires Inv(task, s) && Enabled(s, Take(w))
    ensures Inv(task, Apply(task, s, Take(w)))
  {
    var t := Apply(task, s, Take(w));
    if s.cursor < |task.items| && task.items[s.cursor].Some? {
      assert IndexOk(task, s, s.cursor);
      assert Indices(t.starts) == Indices(s.starts) + [s.cursor];
      assert t.slots[w] == Busy(s.cursor);
    }
    forall i: nat | i < |task.items|
      ensures IndexOk(task, t, i)
    {
      assert IndexOk(task, s, i);
      assert t.slots == s.slots[w := t.slots[w]];
      HeldStays(s.slots, w, t.slots[w], i);
    }
  }

  /** Changing one slot releases at most the index it held. */
  lemma HeldStays(slots: seq<Slot>, w: nat, slot: Slot, i: nat)
    requires w < |slots| && slots[w] != Busy(i)
    ensures Held(slots, i) ==> Held(slots[w := slot], i)
    ensures !slots[w].Dead? && NoneDead(slots[w := slot]) ==> NoneDead(slots)
  {
    assert forall v :: 0 <= v < |slots| && v != w ==> slots[w := slot][v] == slots[v];
    if Held(slots, i) {
      var v: nat :| v < |slots| && slots[v] == Busy(i);
      assert slots[w := slot][v] == Busy(i);
    }
  }

  lemma InvFinish<T, R>(task: Task<T, R>, s: State<R>, w: nat)
    requires Inv(task, s) && Enabled(s, Finish(w))
    ensures Inv(task, Apply(task, s, Finish(w)))
  {
    var t := Apply(task, s, Finish(w));
    forall i: nat | i < |task.items|
      ensures IndexOk(task, t, i)
    {
      assert IndexOk(task, s, i);
      assert t.slots == s.slots[w := Ready];
      if i != s.slots[w].index {
        HeldStays(s.slots, w, Ready, i);
      }
    }
  }

  lemma InvThrow<T, R>(task: Task<T, R>, s: State<R>, w: nat)
    requires Inv(task, s) && Enabled(s, Throw(w))
    ensures Inv(task, Apply(task, s, Throw(w)))
  {
    var t := Apply(task, s, Throw(w));
    assert t.slots[w].Dead?;
    forall i: nat | i < |task.items|
      ensures IndexOk(task, t, i)
    {
      assert IndexOk(task, s, i);
    }
  }

  lemma InvTurn<T, R>(task: Task<T, R>, s: State<R>, a: Turn)
    requires Inv(task, s) && Enabled(s, a)
    ensures Inv(task, Apply(task, s, a))
  {
    match a
    case Take(w) => InvTake(task, s, w);
    case Finish(w) => InvFinish(task, s, w);
    case Throw(w) => InvThrow(task, s, w);
  }

  // ---------------------------------------------------------------- runs

  /** `turns` can be taken one after the other from `s`. */
  predicate Runs<T, R>(task: Task<T, R>, s: State<R>, turns: seq<Turn>)
    decreases |turns|
  {
    turns == [] || (Enabled(s, turns[0]) && Runs(task, Apply(task, s, turns[0]), turns[1..]))
  }

  function After<T, R>(task: Task<T, R>, s: State<R>, turns: seq<Turn>): State<R>
    requires Runs(task, s, turns)
    decreases |turns|
  {
    if turns == [] then s else After(task, Apply(task, s, turns[0]), turns[1..])
  }

  lemma {:induction false} InvAfter<T, R>(task: Task<T, R>, s: State<R>, turns: seq<Turn>)
    requires Inv(task, s) && Runs(task, s, turns)
    ensures Inv(task, After(task, s, turns))
    decreases |turns|
  {
    if turns == [] {
    } else {
      InvTurn(task, s, turns[0]);
      InvAfter(task, Apply(task, s, turns[0]), turns[1..]);
    }
  }

  /** The pool has resolved: every worker has returned and none has thrown. */
  predicate Resolved<R>(s: State<R>) {
    forall w :: 0 <= w < |s.slots| ==> s.slots[w].Done?
  }

  /** The sequential map, with a hole where the item is undefined. */
  function Mapped<T, R>(task: Task<T, R>): (r: seq<Option<R>>) {
    seq(|task.items|, i requires 0 <= i < |task.items| =>
      if task.items[i].Some? then Some(task.mapper(task.items[i].value, i)) else None)
  }

  lemma ResolvedIsMapped<T, R>(task: Task<T, R>, s: State<R>)
    requires Inv(task, s) && Resolved(s)
    ensures s.result == Mapped(task)
    ensures Indices(s.starts) == DefinedBelow(task, |task.items|)
  {
    assert s.slots[0].Done?;
    forall i: nat | i < |task.items|
      ensures s.result[i] == Mapped(task)[i]
    {
      assert IndexOk(task, s, i);
      assert !Held(s.slots, i);
    }
  }

  /** Under every schedule that resolves, the pool returns the sequential map. */
  lemma PoolIsSequentialMap<T, R>(task: Task<T, R>, turns: seq<Turn>)
    requires Runs(task, Start(task), turns) && Resolved(After(task, Start(task), turns))
    ensures After(task, Start(task), turns).result == Mapped(task)
  {
    InvStart(task);
    InvAfter(task, Start(task), turns);
    ResolvedIsMapped(task, After(task, Start(task), turns));
  }

  /** At every moment, resolved or not, thrown or not, a result that is there is the mapper's. */
  lemma PartialResultsAreRight<T, R>(task: Task<T, R>, turns: seq<Turn>, i: nat)
    requires Runs(task, Start(task), turns) && i < |task.items|
    ensures
      var s := After(task, Start(task), turns);
      i < |s.result| && (s.result[i].Some? ==> s.result[i] == Mapped(task)[i])
  {
    InvStart(task);
    InvAfter(task, Start(task), turns);
    assert IndexOk(task, After(task, Start(task), turns), i);
  }

  lemma {:induction false} DefinedBelowIsExact<T, R>(task: Task<T, R>, k: nat)
    requires k <= |task.items|
    ensures forall i: nat :: i in DefinedBelow(task, k) <==> i < k && task.items[i].Some?
    ensures forall x, y :: 0 <= x < y < |DefinedBelow(task, k)| ==> DefinedBelow(task, k)[x] < DefinedBelow(task, k)[y]
  {
    if k == 0 {
    } else {
      DefinedBelowIsExact(task, k - 1);
      var d := DefinedBelow(task, k - 1);
      assert forall x :: 0 <= x < |d| ==> d[x] in d;
    }
  }

  /**
   At every moment the indices taken so far are exactly the defined ones below the cursor, each taken once by one
   worker and in ascending order; when the pool resolves they are all the defined indices.
   */
  lemma EachIndexTakenOnce<T, R>(task: Task<T, R>, turns: seq<Turn>)
    requires Runs(task, Start(task), turns)
    ensures
      var s := After(task, Start(task), turns);
      && (forall x, y :: 0 <= x < y < |s.starts| ==> s.starts[x].1 < s.starts[y].1)
      && (forall i: nat :: i in Indices(s.starts) <==> i < s.cursor && task.Defined(i))
      && (Resolved(s) ==> forall i: nat :: i in Indices(s.starts) <==> task.Defined(i))
  {
    InvStart(task);
    InvAfter(task, Start(task), turns);
    var s := After(task, Start(task), turns);
    DefinedBelowIsExact(task, Min(s.cursor, |task.items|));
    forall x, y | 0 <= x < y < |s.starts|
      ensures s.starts[x].1 < s.starts[y].1
    {
      assert Indices(s.starts)[x] == s.starts[x].1 && Indices(s.starts)[y] == s.starts[y].1;
    }
    if Resolved(s) {
      assert s.slots[0].Done?;
    }
  }

  /** The indices whose mapper is running. */
  function InFlight(slots: seq<Slot>): set<nat> {
    if slots == [] then {}
    else InFlight(slots[..|slots| - 1]) + (if slots[|slots| - 1].Busy? then {slots[|slots| - 1].index} else {})
  }

  lemma {:induction false} InFlightIsBusy(slots: seq<Slot>)
    ensures forall i: nat :: i in InFlight(slots) <==> Held(slots, i)
    ensures |InFlight(slots)| <= |slots|
  {
    if slots == [] {
    } else {
      var n := |slots| - 1;
      InFlightIsBusy(slots[..n]);
      forall i: nat
        ensures i in InFlight(slots) <==> Held(slots, i)
      {
        if Held(slots, i) {
          var w: nat :| w < |slots| && slots[w] == Busy(i);
          assert w < n ==> slots[..n][w] == Busy(i);
        }
        if Held(slots[..n], i) {
          var w: nat :| w < n && slots[..n][w] == Busy(i);
          assert slots[w] == Busy(i);
        }
        assert slots[n] == Busy(i) ==> Held(slots, i);
      }
      assert |InFlight(slots)| <= |InFlight(slots[..n])| + 1;
    }
  }

  /** At most `concurrency` mappers are in flight, and one when that is not positive; none runs an index twice. */
  lemma InFlightBound<T, R>(task: Task<T, R>, turns: seq<Turn>)
    requires Runs(task, Start(task), turns)
    ensures
      var s := After(task, Start(task), turns);
      && |InFlight(s.slots)| <= task.Workers() <= Max(1, task.concurrency)
      && forall i: nat :: i in InFlight(s.slots) ==> task.Defined(i) && i < |s.result| && s.result[i].None?
  {
    InvStart(task);
    InvAfter(task, Start(task), turns);
    InFlightIsBusy(After(task, Start(task), turns).slots);
  }

  /** The first `k` workers are busy with the first `k` indices. */
  ghost predicate Filled<T, R>(task: Task<T, R>, s: State<R>, k: nat) {
    && |s.slots| == task.Workers() && k <= |s.slots| && s.cursor == k
    && forall w :: 0 <= w < |s.slots| ==> s.slots[w] == if w < k then Busy(w) else Ready
  }

  lemma {:induction false} FillsUp<T, R>(task: Task<T, R>, s: State<R>, k: nat) returns (turns: seq<Turn>)
    requires Filled(task, s, k) && task.items != [] && forall i :: 0 <= i < |task.items| ==> task.items[i].Some?
    ensures Runs(task, s, turns) && Filled(task, After(task, s, turns), task.Workers())
    decreases task.Workers() - k
  {
    if k == task.Workers() {
      turns := [];
    } else {
      var rest := FillsUp(task, Apply(task, s, Take(k)), k + 1);
      turns := [Take(k)] + rest;
      assert turns[1..] == rest;
    }
  }

  lemma {:induction false} AllInFlight(slots: seq<Slot>)
    requires forall w :: 0 <= w < |slots| ==> slots[w] == Busy(w)
    ensures |InFlight(slots)| == |slots| && forall i :: i in InFlight(slots) ==> i < |slots|
  {
    if slots == [] {
    } else {
      AllInFlight(slots[..|slots| - 1]);
    }
  }

  /** The bound is reached: with every item defined, the workers can have min(concurrency, length) mappers in flight at once. */
  lemma PoolFills<T, R>(task: Task<T, R>) returns (turns: seq<Turn>)
    requires task.items != [] && forall i :: 0 <= i < |task.items| ==> task.items[i].Some?
    ensures Runs(task, Start(task), turns)
    ensures |InFlight(After(task, Start(task), turns).slots)| ==
              if task.concurrency < 1 then 1 else if task.concurrency < |task.items| then task.concurrency else |task.items|
  {
    turns := FillsUp(task, Start(task), 0);
    AllInFlight(After(task, Start(task), turns).slots);
  }

  // ---------------------------------------------------------------- every schedule ends

  function Weight(slots: seq<Slot>): nat {
    if slots == [] then 0
    else Weight(slots[..|slots| - 1]) + (match slots[|slots| - 1] case Ready => 1 case Busy(_) => 2 case _ => 0)
  }

  lemma {:induction false} WeightUpdate(slots: seq<Slot>, w: nat, slot: Slot)
    requires w < |slots|
    ensures Weight(slots[w := slot]) == Weight(slots) - Weight([slots[w]]) + Weight([slot])
  {
    var n := |slots| - 1;
    if w < n {
      WeightUpdate(slots[..n], w, slot);
      assert slots[w := slot][..n] == slots[..n][w := slot];
    } else {
      assert slots[w := slot][..n] == slots[..n];
      assert [slots[w]][..0] == [] && [slot][..0] == [];
    }
    assert [slots[w]][..0] == [] && [slot][..0] == [];
  }

  function Measure<T, R>(task: Task<T, R>, s: State<R>): nat {
    2 * (|task.items| - Min(s.cursor, |task.items|)) + Weight(s.slots)
  }

  lemma TurnsDecrease<T, R>(task: Task<T, R>, s: State<R>, a: Turn)
    requires Inv(task, s) && Enabled(s, a)
    ensures Measure(task, Apply(task, s, a)) < Measure(task, s)
  {
    var t := Apply(task, s, a);
    WeightUpdate(s.slots, a.w, t.slots[a.w]);
    assert t.slots == s.slots[a.w := t.slots[a.w]];
    assert [s.slots[a.w]][..0] == [] && [t.slots[a.w]][..0] == [];
  }

  lemma {:induction false} RunBound<T, R>(task: Task<T, R>, s: State<R>, turns: seq<Turn>)
    requires Inv(task, s) && Runs(task, s, turns)
    ensures |turns| + Measure(task, After(task, s, turns)) <= Measure(task, s)
    decreases |turns|
  {
    if turns == [] {
    } else {
      InvTurn(task, s, turns[0]);
      TurnsDecrease(task, s, turns[0]);
      RunBound(task, Apply(task, s, turns[0]), turns[1..]);
    }
  }

  lemma {:induction false} ReadyWeight(n: nat)
    ensures Weight(seq(n, _ => Ready)) == n
  {
    if n == 0 {
    } else {
      ReadyWeight(n - 1);
      assert seq(n, _ => Ready)[..n - 1] == seq(n - 1, _ => Ready);
    }
  }

  /** Every schedule ends within two turns an item and one a worker, and it can only end with all workers stopped. */
  lemma EveryScheduleEnds<T, R>(task: Task<T, R>, turns: seq<Turn>)
    requires Runs(task, Start(task), turns)
    ensures |turns| <= 2 * |task.items| + task.Workers()
    ensures
      var s := After(task, Start(task), turns);
      (forall a :: !Enabled(s, a)) <==> forall w :: 0 <= w < |s.slots| ==> s.slots[w].Done? || s.slots[w].Dead?
  {
    InvStart(task);
    RunBound(task, Start(task), turns);
    ReadyWeight(task.Workers());
    var s := After(task, Start(task), turns);
    if w: nat :| w < |s.slots| && !(s.slots[w].Done? || s.slots[w].Dead?) {
      assert Enabled(s, if s.slots[w].Ready? then Take(w) else Finish(w));
    }
  }

  // ---------------------------------------------------------------- the pool as an object

  class PoolRun<T, R> {
    const task: Task<T, R>
    var cursor: nat
    var result: seq<Option<R>>
    var slots: seq<Slot>
    ghost var starts: seq<(nat, nat)>

    constructor (task: Task<T, R>)
      ensures this.task == task && View() == Start(task)
    {
      this.task := task;
      cursor := 0;
      result := seq(|task.items|, _ => None);
      slots := seq(task.Workers(), _ => Ready);
      starts := [];
    }

    ghost function View(): State<R>
      reads this
    {
      State(cursor, slots, result, starts)
    }

    /** A worker's turn up to the mapper call. */
    method TakeTurn(w: nat)
      requires Inv(task, View()) && Enabled(View(), Take(w))
      modifies this
      ensures View() == Apply(task, old(View()), Take(w)) && Inv(task, View())
    {
      InvTurn(task, View(), Take(w));
      var index := cursor;
      cursor := cursor + 1;
      if index >= |task.items| {
        slots := slots[w := Done];
        return;
      }
      var item := task.items[index];
      if item.None? {
        return;
      }
      slots := slots[w := Busy(index)];
      starts := starts + [(w, index)];
    }

    /** A worker's turn when its mapper answers. */
    method FinishTurn(w: nat)
      requires Inv(task, View()) && Enabled(View(), Finish(w))
      modifies this
      ensures View() == Apply(task, old(View()), Finish(w)) && Inv(task, View())
    {
      InvTurn(task, View(), Finish(w));
      var index := slots[w].index;
      result := result[index := Some(task.mapper(task.items[index].value, index))];
      slots := slots[w := Ready];
    }

    /** A worker's turn when its mapper throws: the worker is gone, and the pool rejects. */
    method ThrowTurn(w: nat)
      requires Inv(task, View()) && Enabled(View(), Throw(w))
      modifies this
      ensures View() == Apply(task, old(View()), Throw(w)) && Inv(task, View())
    {
      InvTurn(task, View(), Throw(w));
      slots := slots[w := Dead];
    }

    /** The workers take their turns in whatever order, until all have returned; the mapper does not throw. */
    method MapWithConcurrency()
      requires View() == Start(task)
      modifies this
      ensures result == Mapped(task)
    {
      InvStart(task);
      while exists w :: 0 <= w < |slots| && !slots[w].Done?
        invariant Inv(task, View())
        invariant NoneDead(slots)
        decreases Measure(task, View())
      {
        var w: nat :| w < |slots| && !slots[w].Done?;
        TurnsDecrease(task, View(), if slots[w].Ready? then Take(w) else Finish(w));
        if slots[w].Ready? {
          TakeTurn(w);
        } else {
          FinishTurn(w);
        }
      }
      ResolvedIsMapped(task, View());
    }
  }
}
