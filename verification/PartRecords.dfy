/**
 The list of completed parts that an upload session keeps: recording a part merges it into the stored list through a
 map keyed by part number and sorts the values.
 */
module PartRecords {
  import opened Base

  datatype Part = Part(partNumber: nat, eTag: string)

  predicate Ascending(parts: seq<Part>) {
    forall i, j :: 0 <= i < j < |parts| ==> parts[i].partNumber < parts[j].partNumber
  }

  /** Filling a map from a list: the last part with a number wins. */
  function ByNumber(parts: seq<Part>): map<nat, Part> {
    if parts == [] then map[]
    else
      var last := parts[|parts| - 1];
      ByNumber(parts[..|parts| - 1])[last.partNumber := last]
  }

  predicate Keyed(m: map<nat, Part>) {
    forall k :: k in m ==> m[k].partNumber == k
  }

  lemma ByNumberSnoc(front: seq<Part>, last: Part)
    ensures ByNumber(front + [last]) == ByNumber(front)[last.partNumber := last]
  {
    assert (front + [last])[..|front|] == front;
  }

  lemma {:induction false} ByNumberIsKeyed(parts: seq<Part>)
    ensures Keyed(ByNumber(parts))
    ensures forall k :: k in ByNumber(parts) <==> exists i :: 0 <= i < |parts| && parts[i].partNumber == k
  {
    if parts == [] {
    } else {
      var front, last := parts[..|parts| - 1], parts[|parts| - 1];
      ByNumberIsKeyed(front);
      forall k
        ensures k in ByNumber(parts) <==> exists i :: 0 <= i < |parts| && parts[i].partNumber == k
      {
        if i :| 0 <= i < |parts| && parts[i].partNumber == k {
          assert i < |front| ==> front[i].partNumber == k;
        }
        if i :| 0 <= i < |front| && front[i].partNumber == k {
          assert parts[i].partNumber == k;
        }
      }
    }
  }

  /** Of several parts with one number the map keeps the last. */
  lemma {:induction false} LastWins(parts: seq<Part>, i: nat)
    requires i < |parts| && forall j :: i < j < |parts| ==> parts[j].partNumber != parts[i].partNumber
    ensures parts[i].partNumber in ByNumber(parts) && ByNumber(parts)[parts[i].partNumber] == parts[i]
    decreases |parts|
  {
    var n := |parts| - 1;
    if i < n {
      LastWins(parts[..n], i);
    }
  }

  /** The members of an ascending list are what its map holds. */
  lemma AscendingMembers(parts: seq<Part>, p: Part)
    requires Ascending(parts)
    ensures p in parts <==> p.partNumber in ByNumber(parts) && ByNumber(parts)[p.partNumber] == p
  {
    ByNumberIsKeyed(parts);
    if p in parts {
      var i :| 0 <= i < |parts| && parts[i] == p;
      LastWins(parts, i);
    }
    if p.partNumber in ByNumber(parts) {
      var i :| 0 <= i < |parts| && parts[i].partNumber == p.partNumber;
      LastWins(parts, i);
    }
  }

  /** The last of an ascending list has the largest number, and the rest is the map without it. */
  lemma LastIsLargest(x: seq<Part>)
    requires Ascending(x) && x != []
    ensures
      var last := x[|x| - 1];
      && last.partNumber in ByNumber(x) && ByNumber(x)[last.partNumber] == last
      && (forall k :: k in ByNumber(x) ==> k <= last.partNumber)
      && ByNumber(x[..|x| - 1]) == ByNumber(x) - {last.partNumber}
  {
    var front, last := x[..|x| - 1], x[|x| - 1];
    ByNumberIsKeyed(front);
    forall k | k in ByNumber(front)
      ensures k < last.partNumber
    {
      var i :| 0 <= i < |front| && front[i].partNumber == k;
      assert x[i] == front[i];
    }
    assert ByNumber(front)[last.partNumber := last] - {last.partNumber} == ByNumber(front);
  }

  /** An ascending list is determined by its map. */
  lemma {:induction false} AscendingIsUnique(x: seq<Part>, y: seq<Part>)
    requires Ascending(x) && Ascending(y) && ByNumber(x) == ByNumber(y)
    ensures x == y
    decreases |x|
  {
    if x == [] || y == [] {
      if x != [] { LastIsLargest(x); }
      if y != [] { LastIsLargest(y); }
    } else {
      LastIsLargest(x);
      LastIsLargest(y);
      var fx, fy := x[..|x| - 1], y[..|y| - 1];
      AscendingIsUnique(fx, fy);
      assert x == fx + [x[|x| - 1]] && y == fy + [y[|y| - 1]];
    }
  }

  /** What recording a part leaves: the ascending list of the map updated with it. */
  ghost predicate Recorded(stored: seq<Part>, part: Part, after: seq<Part>) {
    Ascending(after) && ByNumber(after) == ByNumber(stored)[part.partNumber := part]
  }

  /** Half-way through sorting: `parts` holds the smallest numbers of `m`, in order, and `rest` the others. */
  ghost predicate Sorting(m: map<nat, Part>, parts: seq<Part>, rest: map<nat, Part>) {
    && Keyed(rest) && Ascending(parts)
    && (forall i, k :: 0 <= i < |parts| && k in rest ==> parts[i].partNumber < k)
    && m == ByNumber(parts) + rest
  }

  lemma SortStep(m: map<nat, Part>, parts: seq<Part>, rest: map<nat, Part>, k: nat)
    requires Sorting(m, parts, rest) && k in rest && forall l :: l in rest ==> k <= l
    ensures Sorting(m, parts + [rest[k]], rest - {k})
  {
    ByNumberSnoc(parts, rest[k]);
    MoveOver(ByNumber(parts), rest, k);
    AscendingSnoc(parts, rest[k]);
    Ahead(parts, rest, k);
  }

  lemma AscendingSnoc(parts: seq<Part>, last: Part)
    requires Ascending(parts) && forall i :: 0 <= i < |parts| ==> parts[i].partNumber < last.partNumber
    ensures Ascending(parts + [last])
  {
  }

  lemma Ahead(parts: seq<Part>, rest: map<nat, Part>, k: nat)
    requires Keyed(rest) && k in rest && forall l :: l in rest ==> k <= l
    requires forall i, l :: 0 <= i < |parts| && l in rest ==> parts[i].partNumber < l
    ensures Keyed(rest - {k})
    ensures forall i, l :: 0 <= i < |parts + [rest[k]]| && l in rest - {k} ==> (parts + [rest[k]])[i].partNumber < l
  {
  }

  lemma MoveOver(done: map<nat, Part>, rest: map<nat, Part>, k: nat)
    requires k in rest
    ensures done[k := rest[k]] + (rest - {k}) == done + rest
  {
  }

  lemma {:induction false} SomeSmallest(keys: set<nat>)
    requires keys != {}
    ensures exists k :: k in keys && forall l :: l in keys ==> k <= l
    decreases keys
  {
    var x :| x in keys;
    if y :| y in keys && y < x {
      var rest := keys - {x};
      assert y in rest;
      SomeSmallest(rest);
      var best :| best in rest && forall l :: l in rest ==> best <= l;
      forall l | l in keys
        ensures best <= l
      {
        assert l == x || l in rest;
      }
    }
  }

  /** The values of the map, sorted by part number. */
  method SortedValues(m: map<nat, Part>) returns (parts: seq<Part>)
    requires Keyed(m)
    ensures Ascending(parts) && ByNumber(parts) == m
  {
    parts := [];
    var rest := m;
    while rest.Keys != {}
      invariant Sorting(m, parts, rest)
      decreases rest.Keys
    {
      SomeSmallest(rest.Keys);
      var k: nat :| k in rest.Keys && forall l :: l in rest.Keys ==> k <= l;
      SortStep(m, parts, rest, k);
      assert k !in (rest - {k}).Keys;
      parts, rest := parts + [rest[k]], rest - {k};
    }
    assert rest == map[];
  }

  class UploadSession {
    var completedParts: seq<Part>

    constructor ()
      ensures completedParts == []
    {
      completedParts := [];
    }

    method RecordMultipartPart(part: Part) returns (numbers: seq<nat>)
      modifies this
      ensures Recorded(old(completedParts), part, completedParts)
      ensures forall i, j :: 0 <= i < j < |completedParts| ==> completedParts[i].partNumber < completedParts[j].partNumber
      ensures part in completedParts
      ensures Ascending(old(completedParts)) ==>
                forall p :: p in completedParts <==> p == part || (p in old(completedParts) && p.partNumber != part.partNumber)
      ensures |numbers| == |completedParts| && forall i :: 0 <= i < |numbers| ==> numbers[i] == completedParts[i].partNumber
    {
      var existing := completedParts;
      var dedup: map<nat, Part> := map[];
      for i := 0 to |existing|
        invariant dedup == ByNumber(existing[..i])
      {
        ByNumberSnoc(existing[..i], existing[i]);
        assert existing[..i] + [existing[i]] == existing[..i + 1];
        dedup := dedup[existing[i].partNumber := existing[i]];
      }
      assert existing[..|existing|] == existing;
      ByNumberIsKeyed(existing);
      dedup := dedup[part.partNumber := part];
      var sorted := SortedValues(dedup);
      completedParts := sorted;
      AscendingMembers(sorted, part);
      if Ascending(existing) {
        forall p ensures p in sorted <==> p == part || (p in existing && p.partNumber != part.partNumber) {
          AscendingMembers(sorted, p);
          AscendingMembers(existing, p);
        }
      }
      numbers := seq(|sorted|, i requires 0 <= i < |sorted| => sorted[i].partNumber);
    }
  }

  // ---------------------------------------------------------------- sequences of records

  /** `lists[i + 1]` is what recording `parts[i]` makes of `lists[i]`. */
  ghost predicate RecordRun(lists: seq<seq<Part>>, parts: seq<Part>) {
    && |lists| == |parts| + 1
    && forall i :: 0 <= i < |parts| ==> Recorded(lists[i], parts[i], lists[i + 1])
  }

  lemma PutLater(x: map<nat, Part>, y: map<nat, Part>, part: Part)
    ensures (x + y)[part.partNumber := part] == x + y[part.partNumber := part]
  {
  }

  lemma {:induction false} ByNumberAppend(x: seq<Part>, y: seq<Part>)
    ensures ByNumber(x + y) == ByNumber(x) + ByNumber(y)
    decreases |y|
  {
    if y == [] {
      assert x + y == x;
    } else {
      var front, last := y[..|y| - 1], y[|y| - 1];
      ByNumberAppend(x, front);
      assert x + y == x + front + [last];
      ByNumberSnoc(x + front, last);
      PutLater(ByNumber(x), ByNumber(front), last);
    }
  }

  /**
   After any sequence of records the list is strictly ascending and holds, for every number ever stored, the part
   stored last.
   */
  lemma {:induction false} RecordsAreLastWriteWins(lists: seq<seq<Part>>, parts: seq<Part>)
    requires RecordRun(lists, parts)
    ensures ByNumber(lists[|parts|]) == ByNumber(lists[0] + parts)
    ensures parts != [] ==> Ascending(lists[|parts|])
    decreases |parts|
  {
    if parts == [] {
      assert lists[0] + parts == lists[0];
    } else {
      var n := |parts| - 1;
      RecordsAreLastWriteWins(lists[..n + 1], parts[..n]);
      assert (lists[0] + parts)[..|lists[0] + parts| - 1] == lists[0] + parts[..n];
      assert Recorded(lists[n], parts[n], lists[n + 1]);
    }
  }

  /** Records of different parts commute. */
  lemma RecordsCommute(stored: seq<Part>, p: Part, q: Part, a: seq<Part>, ab: seq<Part>, b: seq<Part>, ba: seq<Part>)
    requires p.partNumber != q.partNumber
    requires Recorded(stored, p, a) && Recorded(a, q, ab)
    requires Recorded(stored, q, b) && Recorded(b, p, ba)
    ensures ab == ba
  {
    assert ByNumber(ab) == ByNumber(ba);
    AscendingIsUnique(ab, ba);
  }

  /** A later record of the same part replaces the earlier one; recording a part again changes nothing. */
  lemma RecordOverwrites(stored: seq<Part>, p: Part, q: Part, a: seq<Part>, ab: seq<Part>, b: seq<Part>)
    requires p.partNumber == q.partNumber
    requires Recorded(stored, p, a) && Recorded(a, q, ab) && Recorded(stored, q, b)
    ensures ab == b
    ensures p == q ==> ab == a
  {
    assert ByNumber(ab) == ByNumber(b);
    AscendingIsUnique(ab, b);
    if p == q {
      assert ByNumber(ab) == ByNumber(a);
      AscendingIsUnique(ab, a);
    }
  }

  /**
   Two calls at once: both read `stored`, `p` is written first and `q` over it. The outcome is that of one call after
   the other exactly when the calls record the same part number or `p` was stored already; otherwise `p` is lost.
   */
  lemma ConcurrentRecordsAgreeIff(stored: seq<Part>, p: Part, q: Part, a: seq<Part>, both: seq<Part>, over: seq<Part>)
    requires Recorded(stored, p, a) && Recorded(a, q, both) && Recorded(stored, q, over)
    ensures over == both <==>
              p.partNumber == q.partNumber || (p.partNumber in ByNumber(stored) && ByNumber(stored)[p.partNumber] == p)
  {
    var m := ByNumber(stored);
    if p.partNumber == q.partNumber || (p.partNumber in m && m[p.partNumber] == p) {
      assert ByNumber(over) == ByNumber(both);
      AscendingIsUnique(over, both);
    } else {
      assert p.partNumber in ByNumber(both) && ByNumber(both)[p.partNumber] == p;
    }
  }
}
