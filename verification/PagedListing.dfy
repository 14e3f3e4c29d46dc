/**
 Listing a prefix page by page, and deleting it while paging. The server lists keys in one fixed order; a
 continuation token is a position in that order, and the server chooses how far each page reaches. Keys that
 are missing, or that lie outside the prefix, are skipped, so a page may be short or empty.
 */
module PagedListing {
  import opened Base
  import opened Paths
  import opened FolderRename
  import opened RenameService

  /** The server's listing order: no key twice, and every key of the bucket in it. */
  ghost predicate OrderOf<C>(order: seq<Key>, store: Store<C>) {
    && (forall i, j :: 0 <= i < j < |order| ==> order[i] != order[j])
    && (forall k :: k in store ==> k in order)
  }

  /** The keys of `order` that the listing of the prefix shows, in order. */
  function Shown<C>(order: seq<Key>, store: Store<C>, prefix: string): seq<Key> {
    if order == [] then []
    else
      var last := order[|order| - 1];
      Shown(order[..|order| - 1], store, prefix)
      + if last in store && Under(prefix, last) then [last] else []
  }

  lemma {:induction false} ShownMeaning<C>(order: seq<Key>, store: Store<C>, prefix: string)
    ensures forall k :: k in Shown(order, store, prefix) <==> k in order && k in store && Under(prefix, k)
    ensures (forall i, j :: 0 <= i < j < |order| ==> order[i] != order[j]) ==>
              forall i, j :: 0 <= i < j < |Shown(order, store, prefix)| ==>
                Shown(order, store, prefix)[i] != Shown(order, store, prefix)[j]
    decreases |order|
  {
    if order == [] {
    } else {
      var init, last := order[..|order| - 1], order[|order| - 1];
      ShownMeaning(init, store, prefix);
      assert order == init + [last];
      if forall i, j :: 0 <= i < j < |order| ==> order[i] != order[j] {
        assert last !in init;
      }
    }
  }

  lemma {:induction false} ShownSplit<C>(order: seq<Key>, store: Store<C>, prefix: string, i: nat)
    requires i <= |order|
    ensures Shown(order, store, prefix) == Shown(order[..i], store, prefix) + Shown(order[i..], store, prefix)
    decreases |order|
  {
    if i == |order| {
      assert order[..i] == order;
    } else {
      var n := |order| - 1;
      ShownSplit(order[..n], store, prefix, i);
      assert order[..n][..i] == order[..i] && order[..n][i..] == order[i..n];
      assert order[i..][..|order[i..]| - 1] == order[i..n] && order[i..][|order[i..]| - 1] == order[n];
    }
  }

  /** One listing reply: the keys shown from the token on, as far as the server chose to go. */
  datatype Page = Page(objects: seq<Key>, next: Option<nat>)

  /** Where a page that starts at `token` ends. */
  function PageEnd(order: seq<Key>, token: nat, reach: nat): nat
    requires token <= |order|
  {
    Min(token + Max(reach, 1), |order|)
  }

  function ListPage<C>(order: seq<Key>, store: Store<C>, prefix: string, token: nat, reach: nat): Page
    requires token <= |order|
  {
    var to := PageEnd(order, token, reach);
    Page(Shown(order[token..to], store, prefix), if to < |order| then Some(to) else None)
  }

  /** `listAllKeys`: over a store that does not change, every matching key exactly once, in listing order. */
  method ListAllKeys<C>(store: Store<C>, order: seq<Key>, prefix: string, reach: nat -> nat) returns (keys: seq<Key>)
    requires OrderOf(order, store)
    ensures keys == Shown(order, store, prefix)
    ensures forall k :: k in keys <==> k in store && Under(prefix, k)
    ensures forall i, j :: 0 <= i < j < |keys| ==> keys[i] != keys[j]
  {
    keys := [];
    var token: Option<nat> := Some(0);
    var round := 0;
    while token.Some?
      invariant token.Some? ==> token.value <= |order| && keys == Shown(order[..token.value], store, prefix)
      invariant token.None? ==> keys == Shown(order, store, prefix)
      invariant round > 0 && token.Some? ==> token.value < |order|
      decreases if token.None? then 0 else 2 + |order| - token.value - (if round > 0 then 1 else 0)
    {
      var from := token.value;
      var page := ListPage(order, store, prefix, from, reach(round));
      ghost var to := PageEnd(order, from, reach(round));
      ShownSplit(order[..to], store, prefix, from);
      assert order[..to][..from] == order[..from] && order[..to][from..] == order[from..to];
      keys := keys + page.objects;
      token := page.next;
      round := round + 1;
      if to == |order| { assert order[..to] == order; }
    }
    ShownMeaning(order, store, prefix);
  }

  /** What `listAllKeys` returns is a proper input to a rename: the listing of the source prefix. */
  lemma ListingIsProper<C>(store: Store<C>, order: seq<Key>, source: string, target: string)
    requires OrderOf(order, store) && source != target
    ensures
      var job := Job(source, target, Shown(order, store, source));
      job.Proper() && job.Lists(store)
  {
    ShownMeaning(order, store, source);
    var keys := Shown(order, store, source);
    assert forall i :: 0 <= i < |keys| ==> keys[i] in keys;
  }

  // ---------------------------------------------------------------- deleting while paging

  /**
   What one DeleteObjects call does. Answered: every requested key not listed in `errors` is gone, and of the
   others those in `late` are gone as well. Thrown: some of the requested keys are gone.
   */
  datatype DeleteReply =
    | Answered(errors: seq<Key>, late: set<Key>, counted: nat)
    | Thrown(late: set<Key>)

  function Gone(chunk: seq<Key>, reply: DeleteReply): set<Key> {
    match reply
    case Answered(errors, late, _) => set k | k in chunk && (k !in errors || k in late)
    case Thrown(late) => set k | k in chunk && k in late
  }

  /** The keys that a call reports as failed. */
  function Blamed(chunk: seq<Key>, reply: DeleteReply): seq<Key> {
    match reply
    case Answered(errors, _, _) => errors
    case Thrown(_) => chunk
  }

  /** Whether a call named the key as failed: its answer did, or it threw with the key among those requested. */
  predicate Names(request: seq<Key>, reply: DeleteReply, k: Key) {
    (reply.Answered? && k in reply.errors) || (reply.Thrown? && k in request)
  }

  /** The keys that the first `n` calls requested, in order. */
  function Concat(requests: seq<seq<Key>>, n: nat): seq<Key>
    requires n <= |requests|
  {
    if n == 0 then [] else Concat(requests, n - 1) + requests[n - 1]
  }

  /** The keys that the first `n` calls removed. */
  function Removed(reply: nat -> DeleteReply, requests: seq<seq<Key>>, n: nat): set<Key>
    requires n <= |requests|
  {
    if n == 0 then {} else Removed(reply, requests, n - 1) + Gone(requests[n - 1], reply(n - 1))
  }

  /** The keys that the first `n` calls reported. */
  function Named(reply: nat -> DeleteReply, requests: seq<seq<Key>>, n: nat): seq<Key>
    requires n <= |requests|
  {
    if n == 0 then [] else Named(reply, requests, n - 1) + Blamed(requests[n - 1], reply(n - 1))
  }

  /** Some call requested the key. */
  ghost predicate Asked(requests: seq<seq<Key>>, n: nat, k: Key)
    requires n <= |requests|
  {
    exists x :: 0 <= x < n && k in requests[x]
  }

  /** Some call named the key as failed. */
  ghost predicate Reported(reply: nat -> DeleteReply, requests: seq<seq<Key>>, n: nat, k: Key)
    requires n <= |requests|
  {
    exists x :: 0 <= x < n && Names(requests[x], reply(x), k)
  }

  /** Some call that requested the key was answered without naming it, or took effect late. */
  ghost predicate Dropped(reply: nat -> DeleteReply, requests: seq<seq<Key>>, n: nat, k: Key)
    requires n <= |requests|
  {
    exists x :: 0 <= x < n && k in requests[x] && (k in reply(x).late || (reply(x).Answered? && k !in reply(x).errors))
  }

  /**
   Key by key: a key is reported exactly if some call named it. It is removed exactly if some call that requested it was
   answered without naming it or took effect late. A requested key is removed or reported.
   */
  lemma {:induction false} CallsMeaning(reply: nat -> DeleteReply, requests: seq<seq<Key>>, n: nat, k: Key)
    requires n <= |requests|
    ensures k in Concat(requests, n) <==> Asked(requests, n, k)
    ensures k in Named(reply, requests, n) <==> Reported(reply, requests, n, k)
    ensures k in Removed(reply, requests, n) <==> Dropped(reply, requests, n, k)
    ensures Asked(requests, n, k) ==> Dropped(reply, requests, n, k) || Reported(reply, requests, n, k)
  {
    if n == 0 {
    } else {
      CallsMeaning(reply, requests, n - 1, k);
      CallMeaning(reply, requests, n, k);
    }
  }

  /** The last call adds its keys. */
  lemma CallMeaning(reply: nat -> DeleteReply, requests: seq<seq<Key>>, n: nat, k: Key)
    requires 0 < n <= |requests|
    ensures
      var last, r := requests[n - 1], reply(n - 1);
      && (Asked(requests, n, k) <==> Asked(requests, n - 1, k) || k in last)
      && (Reported(reply, requests, n, k) <==> Reported(reply, requests, n - 1, k) || Names(last, r, k))
      && (Dropped(reply, requests, n, k) <==>
          || Dropped(reply, requests, n - 1, k)
          || (k in last && (k in r.late || (r.Answered? && k !in r.errors))))
  {
  }

  /** What the first `n` calls did does not depend on later ones. */
  lemma {:induction false} SameCalls(reply: nat -> DeleteReply, x: seq<seq<Key>>, y: seq<seq<Key>>, n: nat)
    requires n <= |x| <= |y| && x <= y
    ensures Concat(y, n) == Concat(x, n) && Removed(reply, y, n) == Removed(reply, x, n) && Named(reply, y, n) == Named(reply, x, n)
  {
    if n == 0 {
    } else {
      SameCalls(reply, x, y, n - 1);
      assert y[n - 1] == x[n - 1];
    }
  }

  lemma OneMoreCall(reply: nat -> DeleteReply, requests: seq<seq<Key>>, request: seq<Key>)
    ensures
      var all, n := requests + [request], |requests|;
      && Concat(all, n + 1) == Concat(requests, n) + request
      && Removed(reply, all, n + 1) == Removed(reply, requests, n) + Gone(request, reply(n))
      && Named(reply, all, n + 1) == Named(reply, requests, n) + Blamed(request, reply(n))
  {
    SameCalls(reply, requests, requests + [request], |requests|);
  }

  datatype DeleteResult = DeleteResult(deleted: nat, failed: seq<Key>)

  /** The bucket has only lost keys under the prefix. */
  ghost predicate OnlyPruned<C>(before: Store<C>, after: Store<C>, prefix: string) {
    && (forall k :: k in after ==> k in before && after[k] == before[k])
    && (forall k :: k in before && !Under(prefix, k) ==> k in after)
  }

  /** What the answers to the first `n` calls reported as deleted. */
  function Counted(reply: nat -> DeleteReply, n: nat): nat {
    if n == 0 then 0
    else Counted(reply, n - 1) + (if reply(n - 1).Answered? then reply(n - 1).counted else 0)
  }

  /** A store that honours `Quiet: true` names no deleted key in its answers. */
  ghost predicate Quiet(reply: nat -> DeleteReply) {
    forall i: nat :: reply(i).Answered? ==> reply(i).counted == 0
  }

  lemma {:induction false} QuietCountsNothing(reply: nat -> DeleteReply, n: nat)
    requires Quiet(reply)
    ensures Counted(reply, n) == 0
  {
    if n > 0 {
      QuietCountsNothing(reply, n - 1);
    }
  }

  const CHUNK := 1000

  /**
   What came of the calls so far: `now` is what they left of `first`, and the further failures and deletions are those of
   the calls after `asked`.
   */
  ghost predicate Called<C>(first: Store<C>, now: Store<C>, reply: nat -> DeleteReply, asked: seq<seq<Key>>,
                            requests: seq<seq<Key>>, failed: seq<Key>, deleted: nat)
  {
    && now == first - Removed(reply, requests, |requests|)
    && Named(reply, requests, |requests|) == Named(reply, asked, |asked|) + failed
    && Counted(reply, |requests|) == Counted(reply, |asked|) + deleted
  }

  /** The calls from `call` on requested a thousand keys at most, and never none. */
  ghost predicate Sized(requests: seq<seq<Key>>, call: nat) {
    forall x :: call <= x < |requests| ==> 0 < |requests[x]| <= 1000
  }

  lemma SizedMore(requests: seq<seq<Key>>, call: nat, request: seq<Key>)
    requires Sized(requests, call) && 0 < |request| <= 1000
    ensures Sized(requests + [request], call)
  {
  }

  lemma RemovedChunk<C>(first: Store<C>, now: Store<C>, reply: nat -> DeleteReply, requests: seq<seq<Key>>, chunk: seq<Key>)
    requires now == first - Removed(reply, requests, |requests|)
    ensures now - Gone(chunk, reply(|requests|)) == first - Removed(reply, requests + [chunk], |requests + [chunk]|)
  {
    OneMoreCall(reply, requests, chunk);
    var x, y := Removed(reply, requests, |requests|), Gone(chunk, reply(|requests|));
    assert (first - x) - y == first - (x + y);
  }

  lemma NamedChunk(reply: nat -> DeleteReply, requests: seq<seq<Key>>, before: seq<Key>, failed: seq<Key>, chunk: seq<Key>)
    requires Named(reply, requests, |requests|) == before + failed
    ensures Named(reply, requests + [chunk], |requests + [chunk]|) == before + (failed + Blamed(chunk, reply(|requests|)))
  {
    OneMoreCall(reply, requests, chunk);
    NamedMore(before, failed, Blamed(chunk, reply(|requests|)));
  }

  lemma CalledChunk<C>(first: Store<C>, now: Store<C>, reply: nat -> DeleteReply, asked: seq<seq<Key>>,
                       requests: seq<seq<Key>>, failed: seq<Key>, deleted: nat, chunk: seq<Key>)
    requires asked <= requests && Called(first, now, reply, asked, requests, failed, deleted)
    ensures
      var r := reply(|requests|);
      Called(first, now - Gone(chunk, r), reply, asked, requests + [chunk], failed + Blamed(chunk, r),
             deleted + if r.Answered? then r.counted else 0)
  {
    RemovedChunk(first, now, reply, requests, chunk);
    NamedChunk(reply, requests, Named(reply, asked, |asked|), failed, chunk);
    assert |requests + [chunk]| == |requests| + 1;
  }

  lemma NamedMore(a: seq<Key>, b: seq<Key>, c: seq<Key>)
    ensures (a + b) + c == a + (b + c)
  {
  }

  /** The page up to a position: requested chunk by chunk, and what came of it. */
  ghost predicate PageTo<C>(first: Store<C>, now: Store<C>, reply: nat -> DeleteReply, asked: seq<seq<Key>>,
                            requests: seq<seq<Key>>, failed: seq<Key>, deleted: nat, objects: seq<Key>, to: nat)
    requires to <= |objects|
  {
    && asked <= requests && Concat(requests, |requests|) == Concat(asked, |asked|) + objects[..to]
    && Called(first, now, reply, asked, requests, failed, deleted) && Sized(requests, |asked|)
  }

  lemma PageMore<C>(first: Store<C>, now: Store<C>, reply: nat -> DeleteReply, asked: seq<seq<Key>>,
                    requests: seq<seq<Key>>, failed: seq<Key>, deleted: nat, objects: seq<Key>, i: nat, to: nat)
    requires i < to <= |objects| && to - i <= 1000
    requires PageTo(first, now, reply, asked, requests, failed, deleted, objects, i)
    ensures
      var chunk, r := objects[i..to], reply(|requests|);
      PageTo(first, now - Gone(chunk, r), reply, asked, requests + [chunk], failed + Blamed(chunk, r),
             deleted + (if r.Answered? then r.counted else 0), objects, to)
  {
    var chunk := objects[i..to];
    CalledChunk(first, now, reply, asked, requests, failed, deleted, chunk);
    OneMoreCall(reply, requests, chunk);
    NamedMore(Concat(asked, |asked|), objects[..i], chunk);
    assert objects[..to] == objects[..i] + chunk;
    SizedMore(requests, |asked|, chunk);
  }

  /** The requests for one page, in chunks of at most a thousand keys: together they ask for the page, in order. */
  method DeletePage<C>(bucket: Bucket<C>, objects: seq<Key>, reply: nat -> DeleteReply, call: nat,
                       ghost first: Store<C>, ghost asked: seq<seq<Key>>)
    returns (deleted: nat, failed: seq<Key>, calls: nat, ghost requests: seq<seq<Key>>)
    requires call == |asked| && bucket.objects == first - Removed(reply, asked, |asked|)
    modifies bucket
    ensures calls == |requests| && asked <= requests && Concat(requests, |requests|) == Concat(asked, |asked|) + objects
    ensures Called(first, bucket.objects, reply, asked, requests, failed, deleted)
    ensures Sized(requests, call)
  {
    deleted, failed, calls, requests := 0, [], call, asked;
    var i := 0;
    while i < |objects|
      invariant calls == |requests|
      invariant PageTo(first, bucket.objects, reply, asked, requests, failed, deleted, objects, Min(i, |objects|))
      decreases |objects| - i
    {
      var to := Min(i + CHUNK, |objects|);
      var chunk := objects[i..to];
      var r := reply(calls);
      PageMore(first, bucket.objects, reply, asked, requests, failed, deleted, objects, i, to);
      calls := calls + 1;
      bucket.objects := bucket.objects - Gone(chunk, r);
      failed := failed + Blamed(chunk, r);
      if r.Answered? {
        deleted := deleted + r.counted;
      }
      requests := requests + [chunk];
      i := i + CHUNK;
    }
  }

  /** One page listed and deleted; `next` is the continuation token of the page. */
  method DeleteNextPage<C>(bucket: Bucket<C>, order: seq<Key>, prefix: string, from: nat, reach: nat, reply: nat -> DeleteReply,
                           call: nat, ghost first: Store<C>, ghost asked: seq<seq<Key>>)
    returns (deleted: nat, failed: seq<Key>, calls: nat, next: Option<nat>, ghost requests: seq<seq<Key>>)
    requires from <= |order| && call == |asked| && bucket.objects == first - Removed(reply, asked, |asked|)
    modifies bucket
    ensures next == ListPage(order, old(bucket.objects), prefix, from, reach).next
    ensures calls == |requests| && asked <= requests
    ensures Concat(requests, |requests|) ==
              Concat(asked, |asked|) + Shown(order[from..PageEnd(order, from, reach)], old(bucket.objects), prefix)
    ensures Called(first, bucket.objects, reply, asked, requests, failed, deleted)
  {
    var page := ListPage(order, bucket.objects, prefix, from, reach);
    next := page.next;
    if page.objects == [] {
      return 0, [], call, next, asked;
    }
    deleted, failed, calls, requests := DeletePage(bucket, page.objects, reply, call, first, asked);
  }

  /** Deleting what was requested leaves the rest of the listing as it was. */
  lemma LaterPagesUnchanged<C>(order: seq<Key>, before: Store<C>, after: Store<C>, prefix: string, from: nat,
                               reply: nat -> DeleteReply, requests: seq<seq<Key>>)
    requires from <= |order| && (forall i, j :: 0 <= i < j < |order| ==> order[i] != order[j])
    requires Concat(requests, |requests|) == Shown(order[..from], before, prefix)
    requires after == before - Removed(reply, requests, |requests|)
    ensures forall to :: from <= to <= |order| ==> Shown(order[from..to], after, prefix) == Shown(order[from..to], before, prefix)
  {
    forall k | k in order[from..]
      ensures k in after <==> k in before
    {
      CallsMeaning(reply, requests, |requests|, k);
      ShownMeaning(order[..from], before, prefix);
      if Dropped(reply, requests, |requests|, k) { assert Asked(requests, |requests|, k); }
    }
    forall to | from <= to <= |order|
      ensures Shown(order[from..to], after, prefix) == Shown(order[from..to], before, prefix)
    {
      assert forall k :: k in order[from..to] ==> k in order[from..];
      SameShown(order[from..to], before, after, prefix);
    }
  }

  lemma {:induction false} SameShown<C>(range: seq<Key>, x: Store<C>, y: Store<C>, prefix: string)
    requires forall k :: k in range ==> (k in x <==> k in y)
    ensures Shown(range, x, prefix) == Shown(range, y, prefix)
    decreases |range|
  {
    if range == [] {
    } else {
      SameShown(range[..|range| - 1], x, y, prefix);
    }
  }

  lemma FewerKeys(x: set<Key>, y: set<Key>)
    requires x <= y
    ensures |x| <= |y| && (|x| == |y| ==> x == y)
  {
    assert y == x + (y - x);
    assert |y| == |x| + |y - x|;
  }

  /** Pruning that removes no key removes nothing. */
  lemma PrunedCount<C>(before: Store<C>, after: Store<C>, prefix: string)
    requires OnlyPruned(before, after, prefix)
    ensures |after| <= |before| && (|after| == |before| <==> after == before)
  {
    FewerKeys(after.Keys, before.Keys);
  }

  /**
   `deleteFolderByPrefix`, for any page sizes, any per-key errors and any failing requests. It ends, having requested each
   key under the prefix once. A key is removed exactly if the call that requested it was answered without naming it or
   took effect late, so nothing outside the prefix is touched and every survivor under it is reported. A key is reported
   exactly if some answer named it or the call that requested it threw. The count it answers is what the store's
   answers named: for a store that honours the quiet flag it is therefore the number of keys removed only if none was.
   */
  method DeleteFolderByPrefix<C>(bucket: Bucket<C>, order: seq<Key>, prefix: string, reach: nat -> nat, reply: nat -> DeleteReply)
    returns (result: DeleteResult, calls: nat, ghost requests: seq<seq<Key>>)
    requires OrderOf(order, bucket.objects)
    modifies bucket
    ensures calls == |requests| && Concat(requests, |requests|) == Shown(order, old(bucket.objects), prefix)
    ensures forall k :: Asked(requests, |requests|, k) <==> k in old(bucket.objects) && Under(prefix, k)
    ensures forall k :: k in result.failed <==> Reported(reply, requests, |requests|, k)
    ensures forall k :: k in old(bucket.objects) ==> (k !in bucket.objects <==> Dropped(reply, requests, |requests|, k))
    ensures (forall x :: 0 <= x < calls ==> reply(x).Answered? && reply(x).errors == []) ==>
              result.failed == [] && forall k :: k in bucket.objects ==> !Under(prefix, k)
    ensures result.deleted == Counted(reply, calls)
    ensures Quiet(reply) ==> result.deleted == 0
    ensures Quiet(reply) ==>
              (result.deleted == |old(bucket.objects)| - |bucket.objects| <==> bucket.objects == old(bucket.objects))
    ensures OnlyPruned(old(bucket.objects), bucket.objects, prefix)
    ensures forall k :: k in bucket.objects && Under(prefix, k) ==> k in result.failed
    ensures result.failed == [] ==> bucket.objects == map k | k in old(bucket.objects) && !Under(prefix, k) :: old(bucket.objects)[k]
  {
    var failed: seq<Key> := [];
    var deleted := 0;
    var token: Option<nat> := Some(0);
    var round := 0;
    ghost var first := bucket.objects;
    ghost var to := 0;
    calls, requests := 0, [];
    NothingYet(order, first, prefix, reply);
    while token.Some?
      invariant to <= |order| && to == if token.Some? then token.value else |order|
      invariant calls == |requests| && UpTo(order, first, bucket.objects, prefix, to, failed, deleted, reply, requests)
      invariant round > 0 && token.Some? ==> token.value < |order|
      decreases if token.None? then 0 else 2 + |order| - token.value - (if round > 0 then 1 else 0)
    {
      var from := token.value;
      ghost var before := bucket.objects;
      ghost var asked := requests;
      var d, f, c, next;
      d, f, c, next, requests := DeleteNextPage(bucket, order, prefix, from, reach(round), reply, calls, first, asked);
      to := PageEnd(order, from, reach(round));
      PageDone(order, first, before, bucket.objects, prefix, from, to, failed, f, deleted, d, reply, asked, requests);
      deleted, failed, calls := deleted + d, failed + f, c;
      token := next;
      round := round + 1;
    }
    result := DeleteResult(deleted, failed);
    FolderDone(order, first, bucket.objects, prefix, failed, deleted, reply, requests);
  }

  /** The folder up to a position in the listing order: requested, and what came of it. */
  ghost predicate UpTo<C>(order: seq<Key>, before: Store<C>, after: Store<C>, prefix: string, to: nat, failed: seq<Key>,
                          deleted: nat, reply: nat -> DeleteReply, requests: seq<seq<Key>>)
    requires to <= |order|
  {
    && Concat(requests, |requests|) == Shown(order[..to], before, prefix)
    && after == before - Removed(reply, requests, |requests|) && failed == Named(reply, requests, |requests|)
    && deleted == Counted(reply, |requests|)
  }

  lemma NothingYet<C>(order: seq<Key>, store: Store<C>, prefix: string, reply: nat -> DeleteReply)
    ensures UpTo(order, store, store, prefix, 0, [], 0, reply, [])
  {
    assert store - {} == store && order[..0] == [];
  }

  lemma PageDone<C>(order: seq<Key>, first: Store<C>, before: Store<C>, after: Store<C>, prefix: string, from: nat, to: nat,
                    failed: seq<Key>, more: seq<Key>, deleted: nat, extra: nat, reply: nat -> DeleteReply,
                    asked: seq<seq<Key>>, requests: seq<seq<Key>>)
    requires OrderOf(order, first) && from <= to <= |order|
    requires UpTo(order, first, before, prefix, from, failed, deleted, reply, asked)
    requires Concat(requests, |requests|) == Concat(asked, |asked|) + Shown(order[from..to], before, prefix)
    requires Called(first, after, reply, asked, requests, more, extra)
    ensures UpTo(order, first, after, prefix, to, failed + more, deleted + extra, reply, requests)
  {
    LaterPagesUnchanged(order, first, before, prefix, from, reply, asked);
    ShownUpTo(order, first, prefix, from, to);
  }

  lemma ShownUpTo<C>(order: seq<Key>, store: Store<C>, prefix: string, from: nat, to: nat)
    requires from <= to <= |order|
    ensures Shown(order[..to], store, prefix) == Shown(order[..from], store, prefix) + Shown(order[from..to], store, prefix)
  {
    ShownSplit(order[..to], store, prefix, from);
    assert order[..to][..from] == order[..from] && order[..to][from..] == order[from..to];
  }

  /** What the calls did to each key, once they have requested the whole listing. */
  ghost predicate KeysAnswered<C>(before: Store<C>, after: Store<C>, prefix: string, failed: seq<Key>,
                                  reply: nat -> DeleteReply, requests: seq<seq<Key>>)
  {
    && (forall k :: Asked(requests, |requests|, k) <==> k in before && Under(prefix, k))
    && (forall k :: k in failed <==> Reported(reply, requests, |requests|, k))
    && (forall k :: k in before ==> (k !in after <==> Dropped(reply, requests, |requests|, k)))
    && OnlyPruned(before, after, prefix)
    && (forall k :: k in after && Under(prefix, k) ==> k in failed)
  }

  lemma FolderReport<C>(order: seq<Key>, before: Store<C>, after: Store<C>, prefix: string, failed: seq<Key>,
                        reply: nat -> DeleteReply, requests: seq<seq<Key>>)
    requires OrderOf(order, before) && Concat(requests, |requests|) == Shown(order, before, prefix)
    requires after == before - Removed(reply, requests, |requests|) && failed == Named(reply, requests, |requests|)
    ensures KeysAnswered(before, after, prefix, failed, reply, requests)
  {
    forall k
      ensures Asked(requests, |requests|, k) <==> k in before && Under(prefix, k)
      ensures k in failed <==> Reported(reply, requests, |requests|, k)
      ensures k in before ==> (k !in after <==> Dropped(reply, requests, |requests|, k))
      ensures k in before && k !in after ==> Under(prefix, k)
      ensures k in after && Under(prefix, k) ==> k in failed
    {
      KeyReport(order, before, after, prefix, failed, reply, requests, k);
    }
  }

  lemma FolderDone<C>(order: seq<Key>, before: Store<C>, after: Store<C>, prefix: string, failed: seq<Key>, deleted: nat,
                      reply: nat -> DeleteReply, requests: seq<seq<Key>>)
    requires OrderOf(order, before) && UpTo(order, before, after, prefix, |order|, failed, deleted, reply, requests)
    ensures Concat(requests, |requests|) == Shown(order, before, prefix)
    ensures KeysAnswered(before, after, prefix, failed, reply, requests)
    ensures (forall x :: 0 <= x < |requests| ==> reply(x).Answered? && reply(x).errors == []) ==> failed == []
    ensures failed == [] ==> after == map k | k in before && !Under(prefix, k) :: before[k]
    ensures deleted == Counted(reply, |requests|)
    ensures Quiet(reply) ==> deleted == 0 && (deleted == |before| - |after| <==> after == before)
  {
    assert order[..|order|] == order;
    FolderReport(order, before, after, prefix, failed, reply, requests);
    FolderEmptied(before, after, prefix, failed);
    PrunedCount(before, after, prefix);
    if Quiet(reply) { QuietCountsNothing(reply, |requests|); }
    if forall x :: 0 <= x < |requests| ==> reply(x).Answered? && reply(x).errors == [] {
      NoErrorsNoReports(failed, reply, requests);
    }
  }

  lemma NoErrorsNoReports(failed: seq<Key>, reply: nat -> DeleteReply, requests: seq<seq<Key>>)
    requires failed == Named(reply, requests, |requests|)
    requires forall x :: 0 <= x < |requests| ==> reply(x).Answered? && reply(x).errors == []
    ensures failed == []
  {
    if failed != [] {
      CallsMeaning(reply, requests, |requests|, failed[0]);
    }
  }

  lemma KeyReport<C>(order: seq<Key>, before: Store<C>, after: Store<C>, prefix: string, failed: seq<Key>,
                     reply: nat -> DeleteReply, requests: seq<seq<Key>>, k: Key)
    requires OrderOf(order, before) && Concat(requests, |requests|) == Shown(order, before, prefix)
    requires after == before - Removed(reply, requests, |requests|) && failed == Named(reply, requests, |requests|)
    ensures Asked(requests, |requests|, k) <==> k in before && Under(prefix, k)
    ensures k in failed <==> Reported(reply, requests, |requests|, k)
    ensures k in before ==> (k !in after <==> Dropped(reply, requests, |requests|, k))
    ensures k in before && k !in after ==> Under(prefix, k)
    ensures k in after && Under(prefix, k) ==> k in failed
  {
    ShownMeaning(order, before, prefix);
    CallsMeaning(reply, requests, |requests|, k);
    if Dropped(reply, requests, |requests|, k) { assert Asked(requests, |requests|, k); }
  }

  /** Without reports the prefix is gone and nothing else. */
  lemma FolderEmptied<C>(before: Store<C>, after: Store<C>, prefix: string, failed: seq<Key>)
    requires OnlyPruned(before, after, prefix) && forall k :: k in after && Under(prefix, k) ==> k in failed
    ensures failed == [] ==> after == map k | k in before && !Under(prefix, k) :: before[k]
  {
  }

  /**
   `deleteFileOrFolder`: a key that names a folder is deleted as one; any other key is deleted itself and, if
   something lies under it as a folder, that folder too. Nothing else is touched, and what survives is reported. The key
   itself is reported if its own delete call threw; all other reports are those of the folder's calls.
   */
  method DeleteFileOrFolder<C>(bucket: Bucket<C>, order: seq<Key>, key: string, fault: Fault,
                               reach: nat -> nat, reply: nat -> DeleteReply)
    returns (result: DeleteResult, ghost requests: seq<seq<Key>>)
    requires OrderOf(order, bucket.objects)
    modifies bucket
    ensures forall k :: k in bucket.objects ==> k in old(bucket.objects) && bucket.objects[k] == old(bucket.objects)[k]
    ensures forall k :: k in old(bucket.objects) && k !in bucket.objects ==>
              k == NormalizeKey(key) || Under(NormalizePrefix(NormalizeKey(key)), k)
    ensures forall k :: k in bucket.objects && (k == NormalizeKey(key) || Under(NormalizePrefix(NormalizeKey(key)), k)) ==>
              k in result.failed
    ensures forall k :: k in result.failed <==>
              || (k == NormalizeKey(key) && !EndsWithSlash(NormalizeKey(key)) && fault != Ok)
              || Reported(reply, requests, |requests|, k)
    ensures forall k :: Asked(requests, |requests|, k) ==>
              k in old(bucket.objects) && Under(NormalizePrefix(NormalizeKey(key)), k)
    ensures (EndsWithSlash(NormalizeKey(key)) || fault == Ok)
            && (forall x :: 0 <= x < |requests| ==> reply(x).Answered? && reply(x).errors == []) ==>
              result.failed == []
    ensures Quiet(reply) ==> result.deleted == if !EndsWithSlash(NormalizeKey(key)) && fault.Ok? then 1 else 0
  {
    requests := [];
    var normalized := NormalizeKey(key);
    if EndsWithSlash(normalized) {
      FolderKeyIsPrefix(key);
      var calls;
      result, calls, requests := DeleteFolderByPrefix(bucket, order, normalized, reach, reply);
      return;
    }
    var failed: seq<Key> := [];
    var deleted := 0;
    var ok := bucket.DeleteObject(normalized, fault);
    if ok {
      deleted := deleted + 1;
    } else {
      failed := failed + [normalized];
    }
    var folder := NormalizePrefix(normalized);
    ghost var probed := bucket.objects;
    ShownMeaning(order, probed, folder);
    if Shown(order, bucket.objects, folder) != [] {
      var inner, calls;
      inner, calls, requests := DeleteFolderByPrefix(bucket, order, folder, reach, reply);
      deleted := deleted + inner.deleted;
      failed := failed + inner.failed;
    } else {
      assert forall k :: k in bucket.objects && Under(folder, k) ==> k in Shown(order, probed, folder);
    }
    result := DeleteResult(deleted, failed);
  }

  /** A normalised key that ends in a slash is its own prefix, and lies under itself. */
  lemma FolderKeyIsPrefix(key: string)
    requires EndsWithSlash(NormalizeKey(key))
    ensures NormalizePrefix(NormalizeKey(key)) == NormalizeKey(key)
  {
    NormalizeKeyIsCanonical(key);
  }
}
