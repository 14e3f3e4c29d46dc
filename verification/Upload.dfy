/**
 A resumed upload in the browser: the recovered parts, the worker pool over the missing ones, the map of completed
 parts, the progress shown, and the list handed to the completing call. A worker's turn ends where it awaits: after
 taking a part (until the store answers), after noting it (until the server has recorded it), and then back.
 */
module Upload {
  import opened Base
  import opened Multipart
  import opened PartRecords
  import opened Pool

  /** `tag` is the ETag with which the store answers the upload of a part. */
  datatype Session = Session(size: nat, partSize: nat, recovered: seq<Part>, tag: nat -> string)
  {
    ghost predicate Valid() {
      partSize > 0
    }

    function Total(): nat
      requires partSize > 0
    {
      TotalParts(size, partSize)
    }

    function Have(): set<int> {
      set k: nat | k in ByNumber(recovered)
    }

    function Todo(): seq<nat>
      requires partSize > 0
    {
      Missing(Have(), Total())
    }

    /** The recovered bytes; the order of the map's keys does not matter. */
    function Already(): nat
      requires partSize > 0
    {
      Weighed(size, partSize, Have(), Total())
    }

    function Uploads(): Task<nat, Part>
      requires partSize > 0
    {
      var todo := Todo();
      Task(seq(|todo|, i requires 0 <= i < |todo| => Some(todo[i])), 4, (p, i) => Part(p, tag(p)))
    }

    /** What one part adds to the progress: `end - start`. */
    function Advance(part: nat): int {
      var start := (part - 1) * partSize;
      Min(start + partSize, size) - start
    }
  }

  /** `noted` are the indices whose part is in the map; `shown` the byte counts shown, oldest first. */
  datatype UploadState = UploadState(pool: Pool.State<Part>, noted: set<nat>, parts: map<nat, Part>, uploadedBytes: int, shown: seq<int>)

  datatype Act = TakePart(w: nat) | Note(w: nat) | Acknowledge(w: nat) | Fail(w: nat)

  function Begin(x: Session): UploadState
    requires x.Valid()
  {
    UploadState(Start(x.Uploads()), {}, ByNumber(x.recovered), 0, [Min(x.size, x.Already())])
  }

  predicate CanAct(x: Session, s: UploadState, a: Act)
    requires x.partSize > 0
  {
    match a
    case TakePart(w) => Enabled(s.pool, Take(w))
    case Note(w) => Enabled(s.pool, Finish(w)) && s.pool.slots[w].index < |x.Todo()| && s.pool.slots[w].index !in s.noted
    case Acknowledge(w) => Enabled(s.pool, Finish(w)) && s.pool.slots[w].index < |x.Todo()| && s.pool.slots[w].index in s.noted
    case Fail(w) => Enabled(s.pool, Throw(w))
  }

  function Step(x: Session, s: UploadState, a: Act): UploadState
    requires x.partSize > 0 && CanAct(x, s, a)
  {
    match a
    case TakePart(w) => s.(pool := Apply(x.Uploads(), s.pool, Take(w)))
    case Note(w) =>
      var p := x.Todo()[s.pool.slots[w].index];
      s.(noted := s.noted + {s.pool.slots[w].index}, parts := s.parts[p := Part(p, x.tag(p))])
    case Acknowledge(w) =>
      var bytes := s.uploadedBytes + x.Advance(x.Todo()[s.pool.slots[w].index]);
      s.(pool := Apply(x.Uploads(), s.pool, Finish(w)), uploadedBytes := bytes,
         shown := s.shown + [Min(x.size, x.Already() + Min(bytes, x.size))])
    case Fail(w) => s.(pool := Apply(x.Uploads(), s.pool, Throw(w)))
  }

  // ---------------------------------------------------------------- bytes

  /** Bytes of the first `k` missing parts whose upload has been acknowledged. */
  function Acknowledged(x: Session, result: seq<Option<Part>>, k: nat): nat
    requires x.partSize > 0 && k <= |x.Todo()| && k <= |result|
  {
    if k == 0 then 0
    else Acknowledged(x, result, k - 1) + (if result[k - 1].Some? then PartBytes(x.size, x.partSize, x.Todo()[k - 1]) else 0)
  }

  lemma {:induction false} AcknowledgeOne(x: Session, result: seq<Option<Part>>, i: nat, part: Part, k: nat)
    requires x.Valid() && k <= |x.Todo()| && k <= |result| && i < |result| && i < |x.Todo()| && result[i].None?
    ensures Acknowledged(x, result[i := Some(part)], k) ==
              Acknowledged(x, result, k) + (if i < k then PartBytes(x.size, x.partSize, x.Todo()[i]) else 0)
  {
    if k == 0 {
    } else {
      AcknowledgeOne(x, result, i, part, k - 1);
    }
  }

  lemma {:induction false} AcknowledgedBound(x: Session, result: seq<Option<Part>>, k: nat)
    requires x.Valid() && k <= |x.Todo()| && k <= |result|
    ensures Acknowledged(x, result, k) <= UploadedBytes(x.size, x.partSize, x.Todo()[..k])
    ensures (forall i :: 0 <= i < k ==> result[i].Some?) ==>
              Acknowledged(x, result, k) == UploadedBytes(x.size, x.partSize, x.Todo()[..k])
    ensures (forall i :: 0 <= i < k ==> result[i].None?) ==> Acknowledged(x, result, k) == 0
  {
    if k > 0 {
      AcknowledgedBound(x, result, k - 1);
      assert x.Todo()[..k][..k - 1] == x.Todo()[..k - 1];
    } else {
      assert x.Todo()[..k] == [];
    }
  }

  /** Recovered and missing bytes are the whole file. */
  lemma BytesBalance(x: Session)
    requires x.Valid()
    ensures x.Already() + UploadedBytes(x.size, x.partSize, x.Todo()) == x.size
  {
    MissingIsComplement(x.size, x.partSize, x.Have(), x.Total());
    TotalPartsIsLeast(x.size, x.partSize);
  }

  lemma TodoIsInRange(x: Session, i: nat)
    requires x.Valid() && i < |x.Todo()|
    ensures 1 <= x.Todo()[i] <= x.Total() && x.Todo()[i] !in ByNumber(x.recovered)
    ensures x.Advance(x.Todo()[i]) == PartBytes(x.size, x.partSize, x.Todo()[i])
  {
    MissingIsExact(x.Have(), x.Total());
    var p := x.Todo()[i];
    assert p in x.Todo();
    TotalPartsIsLeast(x.size, x.partSize);
    MulMono(p - 1, x.Total() - 1, x.partSize);
  }

  // ---------------------------------------------------------------- invariant

  ghost predicate MapOk(x: Session, s: UploadState)
    requires x.partSize > 0
  {
    && (forall i: nat :: i in s.noted ==> i < |x.Todo()|)
    && (forall i: nat :: i < |s.pool.result| && s.pool.result[i].Some? ==> i in s.noted)
    && (forall k: nat :: k in s.parts <==> k in ByNumber(x.recovered) || exists i: nat :: i in s.noted && i < |x.Todo()| && x.Todo()[i] == k)
    && (forall k: nat :: k in ByNumber(x.recovered) ==> k in s.parts && s.parts[k] == ByNumber(x.recovered)[k])
    && (forall i: nat :: i in s.noted && i < |x.Todo()| ==>
          var p := x.Todo()[i];
          p in s.parts && s.parts[p] == Part(p, x.tag(p)))
  }

  ghost predicate ProgressOk(x: Session, s: UploadState)
    requires x.partSize > 0
  {
    && |s.pool.result| == |x.Todo()|
    && s.uploadedBytes == Acknowledged(x, s.pool.result, |x.Todo()|)
    && s.shown != [] && s.shown[|s.shown| - 1] == x.Already() + s.uploadedBytes
    && (forall i :: 0 <= i < |s.shown| ==> 0 <= s.shown[i] <= x.size)
    && (forall i, j :: 0 <= i <= j < |s.shown| ==> s.shown[i] <= s.shown[j])
  }

  ghost predicate Sound(x: Session, s: UploadState) {
    x.Valid() && Inv(x.Uploads(), s.pool) && MapOk(x, s) && ProgressOk(x, s)
  }

  lemma SoundBegin(x: Session)
    requires x.Valid()
    ensures Sound(x, Begin(x))
  {
    InvStart(x.Uploads());
    AcknowledgedBound(x, Begin(x).pool.result, |x.Todo()|);
    BytesBalance(x);
  }

  lemma SoundTakeFail(x: Session, s: UploadState, a: Act)
    requires Sound(x, s) && CanAct(x, s, a) && (a.TakePart? || a.Fail?)
    ensures Sound(x, Step(x, s, a))
  {
    InvTurn(x.Uploads(), s.pool, if a.TakePart? then Take(a.w) else Throw(a.w));
    assert Step(x, s, a).pool.result == s.pool.result;
  }

  lemma SoundNote(x: Session, s: UploadState, w: nat)
    requires Sound(x, s) && CanAct(x, s, Note(w))
    ensures Sound(x, Step(x, s, Note(w)))
  {
    var t, n := Step(x, s, Note(w)), s.pool.slots[w].index;
    TodoIsInRange(x, n);
    MissingIsExact(x.Have(), x.Total());
    forall k: nat
      ensures k in t.parts <==> k in ByNumber(x.recovered) || exists i: nat :: i in t.noted && i < |x.Todo()| && x.Todo()[i] == k
    {
      if k == x.Todo()[n] {
        assert n in t.noted;
      } else if k in s.parts && k !in ByNumber(x.recovered) {
        var i: nat :| i in s.noted && i < |x.Todo()| && x.Todo()[i] == k;
        assert i in t.noted;
      }
    }
  }

  /** What an acknowledgement does to the pool's results: one more, with the part's value. */
  lemma AcknowledgeResult(x: Session, s: UploadState, w: nat)
    requires Sound(x, s) && CanAct(x, s, Acknowledge(w))
    ensures
      var n, t := s.pool.slots[w].index, Step(x, s, Acknowledge(w));
      && n < |s.pool.result| && s.pool.result[n].None? && n in s.noted && n < |x.Todo()|
      && t.pool.result == s.pool.result[n := Some(Part(x.Todo()[n], x.tag(x.Todo()[n])))]
      && t.noted == s.noted && t.parts == s.parts
  {
  }

  lemma AcknowledgeProgress(x: Session, s: UploadState, w: nat)
    requires Sound(x, s) && CanAct(x, s, Acknowledge(w))
    ensures ProgressOk(x, Step(x, s, Acknowledge(w)))
  {
    var t, n, all := Step(x, s, Acknowledge(w)), s.pool.slots[w].index, |x.Todo()|;
    AcknowledgeResult(x, s, w);
    TodoIsInRange(x, n);
    AcknowledgeOne(x, s.pool.result, n, Part(x.Todo()[n], x.tag(x.Todo()[n])), all);
    AcknowledgedBound(x, t.pool.result, all);
    assert x.Todo()[..all] == x.Todo();
    BytesBalance(x);
    ShownGrows(x, s.shown, t.shown[|s.shown|]);
    assert t.shown == s.shown + [t.shown[|s.shown|]];
  }

  /** One more byte count, not below the last nor above the size. */
  lemma ShownGrows(x: Session, shown: seq<int>, next: int)
    requires shown != [] && shown[|shown| - 1] <= next <= x.size
    requires forall i :: 0 <= i < |shown| ==> 0 <= shown[i] <= x.size
    requires forall i, j :: 0 <= i <= j < |shown| ==> shown[i] <= shown[j]
    ensures forall i :: 0 <= i < |shown + [next]| ==> 0 <= (shown + [next])[i] <= x.size
    ensures forall i, j :: 0 <= i <= j < |shown + [next]| ==> (shown + [next])[i] <= (shown + [next])[j]
  {
  }

  lemma AcknowledgeMap(x: Session, s: UploadState, w: nat)
    requires Sound(x, s) && CanAct(x, s, Acknowledge(w))
    ensures MapOk(x, Step(x, s, Acknowledge(w)))
  {
    AcknowledgeResult(x, s, w);
  }

  lemma SoundAcknowledge(x: Session, s: UploadState, w: nat)
    requires Sound(x, s) && CanAct(x, s, Acknowledge(w))
    ensures Sound(x, Step(x, s, Acknowledge(w)))
  {
    InvTurn(x.Uploads(), s.pool, Finish(w));
    AcknowledgeMap(x, s, w);
    AcknowledgeProgress(x, s, w);
  }

  lemma SoundAct(x: Session, s: UploadState, a: Act)
    requires Sound(x, s) && CanAct(x, s, a)
    ensures Sound(x, Step(x, s, a))
  {
    match a
    case Note(w) => SoundNote(x, s, w);
    case Acknowledge(w) => SoundAcknowledge(x, s, w);
    case _ => SoundTakeFail(x, s, a);
  }

  // ---------------------------------------------------------------- runs

  predicate ActsRun(x: Session, s: UploadState, acts: seq<Act>)
    requires x.partSize > 0
    decreases |acts|
  {
    acts == [] || (CanAct(x, s, acts[0]) && ActsRun(x, Step(x, s, acts[0]), acts[1..]))
  }

  function AfterActs(x: Session, s: UploadState, acts: seq<Act>): UploadState
    requires x.partSize > 0 && ActsRun(x, s, acts)
    decreases |acts|
  {
    if acts == [] then s else AfterActs(x, Step(x, s, acts[0]), acts[1..])
  }

  lemma {:induction false} SoundAfter(x: Session, s: UploadState, acts: seq<Act>)
    requires Sound(x, s) && ActsRun(x, s, acts)
    ensures Sound(x, AfterActs(x, s, acts))
    decreases |acts|
  {
    if acts == [] {
    } else {
      SoundAct(x, s, acts[0]);
      SoundAfter(x, Step(x, s, acts[0]), acts[1..]);
    }
  }

  /**
   Under every schedule and any failures, the progress shown starts at the recovered bytes, never falls and never
   exceeds the file size; when the pool resolves it has ended at exactly the size.
   */
  lemma ProgressIsMonotone(x: Session, acts: seq<Act>)
    requires x.Valid() && ActsRun(x, Begin(x), acts)
    ensures
      var s := AfterActs(x, Begin(x), acts);
      && (forall i, j :: 0 <= i <= j < |s.shown| ==> s.shown[i] <= s.shown[j] <= x.size)
      && s.shown != []
      && (Resolved(s.pool) ==> s.shown[|s.shown| - 1] == x.size)
  {
    SoundBegin(x);
    SoundAfter(x, Begin(x), acts);
    var s := AfterActs(x, Begin(x), acts);
    if Resolved(s.pool) {
      ResolvedAcknowledgesAll(x, s);
    }
  }

  /** What the progress shows with nothing acknowledged is what the distinct recovered numbers are worth. */
  lemma RecoveredBytes(x: Session, numbers: seq<int>)
    requires x.Valid() && Distinct(numbers) && Elements(numbers) == x.Have()
    ensures Begin(x).shown == [UploadedBytes(x.size, x.partSize, numbers)]
  {
    UploadedIsWeighed(x.size, x.partSize, numbers);
    BytesBalance(x);
  }

  /** Every acknowledgement adds one byte count to those shown: the last one and the length of the part's slice. */
  lemma AcknowledgementsShow(x: Session, s: UploadState, w: nat, file: Bytes)
    requires Sound(x, s) && CanAct(x, s, Acknowledge(w)) && |file| == x.size
    ensures
      var part := x.Todo()[s.pool.slots[w].index];
      && part >= 1
      && Step(x, s, Acknowledge(w)).shown == s.shown + [s.shown[|s.shown| - 1] + |Chunk(file, part, x.partSize)|]
  {
    var n := s.pool.slots[w].index;
    AcknowledgeProgress(x, s, w);
    TodoIsInRange(x, n);
    PartBytesIsChunkLength(file, x.partSize, x.Todo()[n]);
  }

  /** No more than four parts are on their way at a time, and four can be if as many are missing. */
  lemma FourAtATime(x: Session, acts: seq<Act>)
    requires x.Valid() && ActsRun(x, Begin(x), acts)
    ensures
      var slots := AfterActs(x, Begin(x), acts).pool.slots;
      |InFlight(slots)| <= |slots| == Max(1, Min(4, |x.Todo()|))
  {
    SoundBegin(x);
    SoundAfter(x, Begin(x), acts);
    InFlightIsBusy(AfterActs(x, Begin(x), acts).pool.slots);
  }

  lemma ResolvedAcknowledgesAll(x: Session, s: UploadState)
    requires Sound(x, s) && Resolved(s.pool)
    ensures x.Already() + s.uploadedBytes == x.size
    ensures forall i: nat :: i < |x.Todo()| ==> i in s.noted
  {
    ResolvedIsMapped(x.Uploads(), s.pool);
    AcknowledgedBound(x, s.pool.result, |x.Todo()|);
    assert x.Todo()[..|x.Todo()|] == x.Todo();
    BytesBalance(x);
  }

  /** Every part number 1..n is in the map, and no other. */
  ghost predicate ExactlyParts(parts: map<nat, Part>, n: nat) {
    forall k: nat :: k in parts <==> 1 <= k <= n
  }

  /** The map handed on to `complete`: after the pool, or at once if nothing is missing. */
  ghost predicate Completes(x: Session, acts: seq<Act>)
    requires x.partSize > 0
  {
    ActsRun(x, Begin(x), acts) && (if x.Todo() == [] then acts == [] else Resolved(AfterActs(x, Begin(x), acts).pool))
  }

  /**
   A successful upload hands over each recovered part as recovered and each missing part with the store's answer.
   The numbers are exactly 1..TotalParts if and only if the server recovered no part beyond them.
   */
  lemma CompletedPartsAreExact(x: Session, acts: seq<Act>)
    requires x.Valid() && Completes(x, acts)
    ensures
      var parts := AfterActs(x, Begin(x), acts).parts;
      && (forall k: nat :: 1 <= k <= x.Total() ==>
            k in parts && parts[k] == if k in ByNumber(x.recovered) then ByNumber(x.recovered)[k] else Part(k, x.tag(k)))
      && (ExactlyParts(parts, x.Total()) <==> forall k: nat :: k in ByNumber(x.recovered) ==> 1 <= k <= x.Total())
  {
    SoundBegin(x);
    SoundAfter(x, Begin(x), acts);
    var s := AfterActs(x, Begin(x), acts);
    if x.Todo() != [] {
      ResolvedAcknowledgesAll(x, s);
    }
    AllNotedIsExact(x, s);
  }

  /** Once every missing part is noted, the map holds the recovered numbers and all numbers in range. */
  lemma AllNotedIsExact(x: Session, s: UploadState)
    requires Sound(x, s) && forall i: nat :: i < |x.Todo()| ==> i in s.noted
    ensures forall k: nat :: k in s.parts <==> k in ByNumber(x.recovered) || 1 <= k <= x.Total()
    ensures forall k: nat :: k in s.parts ==>
              s.parts[k] == if k in ByNumber(x.recovered) then ByNumber(x.recovered)[k] else Part(k, x.tag(k))
  {
    forall k: nat
      ensures k in s.parts <==> k in ByNumber(x.recovered) || 1 <= k <= x.Total()
      ensures k in s.parts ==>
                s.parts[k] == if k in ByNumber(x.recovered) then ByNumber(x.recovered)[k] else Part(k, x.tag(k))
    {
      MissingIsExact(x.Have(), x.Total());
      if k !in ByNumber(x.recovered) {
        assert k in x.Todo() <==> 1 <= k <= x.Total();
        if k in x.Todo() {
          var i: nat :| i < |x.Todo()| && x.Todo()[i] == k;
          assert i in s.noted;
        }
      }
    }
  }

  /** The missing parts that are not in the map yet. */
  function Unnoted(x: Session, noted: set<nat>): set<nat>
    requires x.partSize > 0
  {
    set i: nat | i < |x.Todo()| && i !in noted
  }

  lemma NotedShrinks(x: Session, noted: set<nat>, i: nat)
    requires x.Valid() && i < |x.Todo()| && i !in noted
    ensures |Unnoted(x, noted + {i})| < |Unnoted(x, noted)|
  {
    assert Unnoted(x, noted + {i}) == Unnoted(x, noted) - {i};
  }

  /** An ascending list whose numbers are exactly 1..n is the list of n parts in order. */
  lemma {:induction false} AscendingFromOne(parts: seq<Part>, n: nat)
    requires Ascending(parts) && ExactlyParts(ByNumber(parts), n)
    ensures |parts| == n && forall i: nat :: i < |parts| ==> parts[i].partNumber == i + 1
    decreases n
  {
    if parts == [] {
      assert n > 0 ==> n in ByNumber(parts);
    } else {
      LastIsLargest(parts);
      var last := parts[|parts| - 1].partNumber;
      assert last in ByNumber(parts) && n in ByNumber(parts) && last == n;
      AscendingFromOne(parts[..|parts| - 1], n - 1);
    }
  }

  // ---------------------------------------------------------------- the upload as it is written

  datatype UploadOutcome = Completed(parts: seq<Part>) | Rejected

  class UploadRun {
    const session: Session
    const pool: PoolRun<nat, Part>
    var noted: set<nat>
    var completedPartsMap: map<nat, Part>
    var uploadedBytes: int
    var shown: seq<int>

    constructor (session: Session)
      requires session.Valid()
      ensures this.session == session && View() == Begin(session) && pool.task == session.Uploads() && fresh(pool)
    {
      this.session := session;
      pool := new PoolRun(session.Uploads());
      noted := {};
      completedPartsMap := ByNumber(session.recovered);
      uploadedBytes := 0;
      shown := [Min(session.size, session.Already())];
    }

    ghost function View(): UploadState
      reads this, pool
    {
      UploadState(pool.View(), noted, completedPartsMap, uploadedBytes, shown)
    }

    ghost predicate Valid()
      reads this, pool
    {
      session.Valid() && pool.task == session.Uploads() && Sound(session, View())
    }

    method TakePartTurn(w: nat)
      requires Valid() && CanAct(session, View(), TakePart(w))
      modifies pool
      ensures Valid() && View() == Step(session, old(View()), TakePart(w))
    {
      SoundAct(session, View(), TakePart(w));
      pool.TakeTurn(w);
    }

    /** The store has answered: note the part, before telling the server. */
    method NoteTurn(w: nat)
      requires Valid() && CanAct(session, View(), Note(w))
      modifies this
      ensures Valid() && View() == Step(session, old(View()), Note(w))
    {
      SoundAct(session, View(), Note(w));
      var part := session.Todo()[pool.slots[w].index];
      completedPartsMap := completedPartsMap[part := Part(part, session.tag(part))];
      noted := noted + {pool.slots[w].index};
    }

    /** Count a part's bytes and show the sum. */
    method CountPart(part: nat)
      requires session.Valid()
      modifies this`uploadedBytes, this`shown
      ensures uploadedBytes == old(uploadedBytes) + session.Advance(part)
      ensures shown == old(shown) + [Min(session.size, session.Already() + Min(uploadedBytes, session.size))]
    {
      var start := (part - 1) * session.partSize;
      var end := Min(start + session.partSize, session.size);
      uploadedBytes := uploadedBytes + (end - start);
      shown := shown + [Min(session.size, session.Already() + Min(uploadedBytes, session.size))];
    }

    /** The server has recorded the part. */
    method AcknowledgeTurn(w: nat)
      requires Valid() && CanAct(session, View(), Acknowledge(w))
      modifies this, pool
      ensures Valid() && View() == Step(session, old(View()), Acknowledge(w))
    {
      ghost var next := Step(session, View(), Acknowledge(w));
      SoundAct(session, View(), Acknowledge(w));
      var part := session.Todo()[pool.slots[w].index];
      assert next.noted == noted && next.parts == completedPartsMap;
      pool.FinishTurn(w);
      assert pool.View() == next.pool;
      CountPart(part);
      assert View() == next;
    }

    /** The store, or the server, has failed the part for good. */
    method FailTurn(w: nat)
      requires Valid() && CanAct(session, View(), Fail(w))
      modifies pool
      ensures Valid() && View() == Step(session, old(View()), Fail(w))
    {
      SoundAct(session, View(), Fail(w));
      pool.ThrowTurn(w);
    }

    /**
     The whole upload, the workers going in whatever order and `fails` deciding which turns fail. It completes if
     none does. The list it then hands over is strictly ascending, has the recovered and the newly uploaded parts, and
     is 1..TotalParts if no part beyond was recovered. If it rejects, `Valid` still says what the map and the
     progress hold.
     */
    method HandleUpload(fails: nat -> bool) returns (outcome: UploadOutcome)
      requires session.Valid() && pool.task == session.Uploads() && View() == Begin(session)
      modifies this, pool
      ensures Valid()
      ensures (forall i: nat :: !fails(i)) ==> outcome.Completed?
      ensures outcome.Rejected? ==> session.Todo() != [] && !NoneDead(pool.slots)
      ensures outcome.Completed? ==>
                Ascending(outcome.parts) && ByNumber(outcome.parts) == completedPartsMap && outcome.parts != []
      ensures outcome.Completed? ==>
                forall k: nat :: k in completedPartsMap <==> k in ByNumber(session.recovered) || 1 <= k <= session.Total()
      ensures outcome.Completed? ==>
                forall k: nat :: k in completedPartsMap ==>
                  completedPartsMap[k] ==
                    if k in ByNumber(session.recovered) then ByNumber(session.recovered)[k] else Part(k, session.tag(k))
      ensures outcome.Completed? && (forall k: nat :: k in ByNumber(session.recovered) ==> 1 <= k <= session.Total()) ==>
                |outcome.parts| == session.Total() && forall i: nat :: i < |outcome.parts| ==> outcome.parts[i].partNumber == i + 1
      ensures outcome.Completed? ==> shown != [] && shown[|shown| - 1] == session.size
    {
      SoundBegin(session);
      if |session.Todo()| > 0 {
        var ok := UploadMissing(fails);
        if !ok {
          return Rejected;
        }
      }
      var completed := HandOver();
      return Completed(completed);
    }

    /** The list for the completing call, once every missing part is noted and acknowledged. */
    method HandOver() returns (completed: seq<Part>)
      requires Valid() && (session.Todo() == [] || Resolved(pool.View()))
      ensures Ascending(completed) && ByNumber(completed) == completedPartsMap && completed != []
      ensures forall k: nat :: k in completedPartsMap <==> k in ByNumber(session.recovered) || 1 <= k <= session.Total()
      ensures forall k: nat :: k in completedPartsMap ==>
                completedPartsMap[k] ==
                  if k in ByNumber(session.recovered) then ByNumber(session.recovered)[k] else Part(k, session.tag(k))
      ensures (forall k: nat :: k in ByNumber(session.recovered) ==> 1 <= k <= session.Total()) ==>
                |completed| == session.Total() && forall i: nat :: i < |completed| ==> completed[i].partNumber == i + 1
      ensures shown != [] && shown[|shown| - 1] == session.size
    {
      if session.Todo() != [] {
        ResolvedAcknowledgesAll(session, View());
      } else {
        BytesBalance(session);
      }
      AllNotedIsExact(session, View());
      ByNumberIsKeyed(session.recovered);
      completed := SortedValues(completedPartsMap);
      assert 1 in completedPartsMap;
      if forall k: nat :: k in ByNumber(session.recovered) ==> 1 <= k <= session.Total() {
        AscendingFromOne(completed, session.Total());
      }
    }

    /** The next turn of a worker that has not returned. */
    method NextTurn(w: nat)
      requires Valid() && NoneDead(pool.slots) && w < |pool.slots| && !pool.slots[w].Done?
      modifies this, pool
      ensures Valid() && NoneDead(pool.slots)
      ensures
        var before, after := Measure(session.Uploads(), old(pool.View())), Measure(session.Uploads(), pool.View());
        after < before || (after == before && |Unnoted(session, noted)| < |Unnoted(session, old(noted))|)
    {
      if pool.slots[w].Ready? {
        TurnsDecrease(session.Uploads(), pool.View(), Take(w));
        TakePartTurn(w);
      } else if pool.slots[w].index in noted {
        TurnsDecrease(session.Uploads(), pool.View(), Finish(w));
        AcknowledgeTurn(w);
      } else {
        NotedShrinks(session, noted, pool.slots[w].index);
        NoteTurn(w);
      }
    }

    /** The pool over the missing parts, until every worker has returned or one has failed. */
    method UploadMissing(fails: nat -> bool) returns (ok: bool)
      requires Valid() && NoneDead(pool.slots)
      modifies this, pool
      ensures Valid()
      ensures ok ==> Resolved(pool.View())
      ensures !ok ==> !NoneDead(pool.slots) && exists i: nat :: fails(i)
    {
      ok := true;
      var turn := 0;
      while ok && exists w :: 0 <= w < |pool.slots| && !pool.slots[w].Done?
        invariant Valid()
        invariant ok <==> NoneDead(pool.slots)
        invariant !ok ==> exists i: nat :: fails(i)
        decreases ok, Measure(session.Uploads(), pool.View()), |Unnoted(session, noted)|
      {
        var w: nat :| w < |pool.slots| && !pool.slots[w].Done?;
        if pool.slots[w].Busy? && fails(turn) {
          FailTurn(w);
          assert pool.slots[w].Dead?;
          ok := false;
        } else {
          NextTurn(w);
        }
        turn := turn + 1;
      }
    }
  }
}

/** One part's upload with its retries. */
module PartRetry {
  import opened Base

  /** How the store answers one attempt; a response without an ETag is a fault. */
  datatype Answer = Tag(eTag: string) | Fault | Aborted

  datatype Outcome = Uploaded(eTag: string) | Thrown(why: Answer) | NeverTried

  /** `answers(i)` is the answer to attempt `i`. */
  method UploadPartWithRetry(answers: nat -> Answer, maxRetries: int) returns (outcome: Outcome, attempts: nat, waits: seq<nat>)
    ensures maxRetries < 0 ==> outcome == NeverTried && attempts == 0
    ensures maxRetries >= 0 ==>
              && 1 <= attempts <= maxRetries + 1
              && (forall i: nat :: i < attempts - 1 ==> answers(i).Fault?)
              && outcome == (match answers(attempts - 1) case Tag(eTag) => Uploaded(eTag) case why => Thrown(why))
              && (answers(attempts - 1).Fault? ==> attempts == maxRetries + 1)
    ensures |waits| == Max(attempts - 1, 0) && forall i: nat :: i < |waits| ==> waits[i] == 250 * Pow2(i)
  {
    var attempt: nat := 0;
    waits := [];
    while attempt <= maxRetries
      invariant attempt <= Max(maxRetries, 0)
      invariant forall i: nat :: i < attempt ==> answers(i).Fault?
      invariant |waits| == attempt && forall i: nat :: i < attempt ==> waits[i] == 250 * Pow2(i)
      decreases maxRetries - attempt
    {
      var answer := answers(attempt);
      match answer {
        case Tag(eTag) => return Uploaded(eTag), attempt + 1, waits;
        case Aborted => return Thrown(answer), attempt + 1, waits;
        case Fault =>
          if attempt >= maxRetries {
            return Thrown(answer), attempt + 1, waits;
          }
          waits := waits + [250 * Pow2(attempt)];
          attempt := attempt + 1;
      }
    }
    return NeverTried, 0, waits;
  }

  function Sum(waits: seq<nat>): nat {
    if waits == [] then 0 else Sum(waits[..|waits| - 1]) + waits[|waits| - 1]
  }

  /** The waits before the last of k + 1 attempts take 250 * (2^k - 1) milliseconds together. */
  lemma {:induction false} TotalWait(waits: seq<nat>)
    requires forall i: nat :: i < |waits| ==> waits[i] == 250 * Pow2(i)
    ensures Sum(waits) == 250 * (Pow2(|waits|) - 1)
  {
    if waits == [] {
    } else {
      TotalWait(waits[..|waits| - 1]);
    }
  }
}
