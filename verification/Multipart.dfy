/**
 Multipart arithmetic: how many parts a file has, which slice each part is, what a set of completed parts is worth
 in bytes, and which parts are missing.
 */
module Multipart {
  import opened Base

  type Bytes = seq<nat>

  function CeilDiv(n: nat, d: nat): nat
    requires d > 0
  {
    (n + d - 1) / d
  }

  /** An empty file still has one part. */
  function TotalParts(size: nat, partSize: nat): nat
    requires partSize > 0
  {
    Max(1, CeilDiv(size, partSize))
  }

  /** `totalParts` as the server stores it: the client's count if it sent one, none without a file size. */
  function StoredTotalParts(given: Option<nat>, fileSize: Option<nat>, partSize: nat): (r: Option<nat>)
    ensures given.Some? ==> r == given
    ensures r.None? <==> given.None? && fileSize.None?
  {
    if given.Some? then given
    else if fileSize.Some? then Some(TotalParts(fileSize.value, Max(partSize, 1)))
    else None
  }

  /** `Blob.slice` with non-negative bounds: both are clamped to the size, and a crossed range is empty. */
  function Slice(file: Bytes, start: nat, end: nat): Bytes {
    var hi := Min(end, |file|);
    if start >= hi then [] else file[start..hi]
  }

  function Chunk(file: Bytes, part: nat, partSize: nat): Bytes
    requires part >= 1
  {
    var start := (part - 1) * partSize;
    Slice(file, start, Min(start + partSize, |file|))
  }

  // ---------------------------------------------------------------- the chunks tile the file

  /** Where part `k` ends, or where the file does. */
  function EndOf(size: nat, partSize: nat, k: nat): nat {
    Min(k * partSize, size)
  }

  lemma PartStep(size: nat, partSize: nat, k: nat)
    requires k >= 1
    ensures (k - 1) * partSize + partSize == k * partSize
    ensures EndOf(size, partSize, k - 1) <= EndOf(size, partSize, k) <= size
  {
    calc {
      (k - 1) * partSize + partSize;
      (k - 1 + 1) * partSize;
      k * partSize;
    }
  }

  lemma ChunkIsSlice(file: Bytes, part: nat, partSize: nat)
    requires part >= 1
    ensures EndOf(|file|, partSize, part - 1) <= EndOf(|file|, partSize, part) <= |file|
    ensures Chunk(file, part, partSize) == file[EndOf(|file|, partSize, part - 1)..EndOf(|file|, partSize, part)]
  {
    PartStep(|file|, partSize, part);
  }

  /** `TotalParts` is the least number of parts, from one on, that reaches the end of the file. */
  lemma TotalPartsIsLeast(size: nat, partSize: nat)
    requires partSize > 0
    ensures
      var n := TotalParts(size, partSize);
      && n * partSize >= size && n >= 1
      && (n > 1 ==> (n - 1) * partSize < size)
      && (size == 0 ==> n == 1)
  {
    CeilBounds(size, partSize);
  }

  lemma CeilBounds(n: nat, d: nat)
    requires d > 0
    ensures CeilDiv(n, d) * d >= n
    ensures n > 0 ==> CeilDiv(n, d) >= 1 && (CeilDiv(n, d) - 1) * d < n
    ensures n == 0 ==> CeilDiv(n, d) == 0
  {
    var q, m := CeilDiv(n, d), n + d - 1;
    assert m == d * q + m % d;
    assert d * q == q * d;
    if n > 0 {
      LargeQuotient(m, d);
      assert (q - 1) * d == q * d - d;
    } else {
      SmallQuotient(m, d);
    }
  }

  lemma SmallQuotient(m: nat, d: nat)
    requires m < d
    ensures m / d == 0
  {
  }

  lemma LargeQuotient(m: nat, d: nat)
    requires m >= d > 0
    ensures m / d >= 1
  {
  }

  function Joined(file: Bytes, partSize: nat, k: nat): Bytes {
    if k == 0 then [] else Joined(file, partSize, k - 1) + Chunk(file, k, partSize)
  }

  lemma {:induction false} JoinedIsPrefix(file: Bytes, partSize: nat, k: nat)
    ensures EndOf(|file|, partSize, k) <= |file|
    ensures Joined(file, partSize, k) == file[..EndOf(|file|, partSize, k)]
  {
    if k == 0 {
    } else {
      JoinedIsPrefix(file, partSize, k - 1);
      ChunkIsSlice(file, k, partSize);
      var a, b := EndOf(|file|, partSize, k - 1), EndOf(|file|, partSize, k);
      assert file[..a] + file[a..b] == file[..b];
    }
  }

  /**
   For every file and part size, the chunks of parts 1..TotalParts concatenate to the file. All parts but the last
   are full, and the last is neither empty nor oversized unless the file is empty.
   */
  lemma ChunksTile(file: Bytes, partSize: nat)
    requires partSize > 0
    ensures
      var n := TotalParts(|file|, partSize);
      && Joined(file, partSize, n) == file
      && (forall k: nat :: 1 <= k < n ==> |Chunk(file, k, partSize)| == partSize)
      && |Chunk(file, n, partSize)| <= partSize
      && (file != [] ==> |Chunk(file, n, partSize)| > 0)
  {
    var n := TotalParts(|file|, partSize);
    TotalPartsIsLeast(|file|, partSize);
    EnoughParts(file, partSize, n);
    forall k: nat | 1 <= k < n
      ensures |Chunk(file, k, partSize)| == partSize
    {
      ChunkIsSlice(file, k, partSize);
      PartStep(|file|, partSize, k);
      MulMono(k, n - 1, partSize);
    }
    ChunkIsSlice(file, n, partSize);
    PartStep(|file|, partSize, n);
  }

  /** With that many parts the chunks give back the file, and with one part fewer they do not. */
  lemma CountTiles(file: Bytes, partSize: nat)
    requires partSize > 0
    ensures
      var n := TotalParts(|file|, partSize);
      n >= 1 && Joined(file, partSize, n) == file && (n > 1 ==> Joined(file, partSize, n - 1) != file)
  {
    var n := TotalParts(|file|, partSize);
    TotalPartsIsLeast(|file|, partSize);
    EnoughParts(file, partSize, n);
    if n > 1 {
      TooFewParts(file, partSize, n - 1);
    }
  }

  /** The same for the count that the server computes for itself, which takes a part size of zero for one. */
  lemma ServerCountTiles(file: Bytes, partSize: nat)
    ensures
      var n, size := StoredTotalParts(None, Some(|file|), partSize), Max(partSize, 1);
      && n.Some? && n.value >= 1 && Joined(file, size, n.value) == file
      && (n.value > 1 ==> Joined(file, size, n.value - 1) != file)
  {
    CountTiles(file, Max(partSize, 1));
  }

  lemma EnoughParts(file: Bytes, partSize: nat, k: nat)
    requires k * partSize >= |file|
    ensures Joined(file, partSize, k) == file
  {
    JoinedIsPrefix(file, partSize, k);
    assert file[..|file|] == file;
  }

  lemma TooFewParts(file: Bytes, partSize: nat, k: nat)
    requires k * partSize < |file|
    ensures Joined(file, partSize, k) != file
  {
    JoinedIsPrefix(file, partSize, k);
    assert |file[..k * partSize]| == k * partSize;
  }

  // ---------------------------------------------------------------- bytes of completed parts

  /** The contribution of one part number to `calculateUploadedBytes`. */
  function PartBytes(size: nat, partSize: nat, part: int): nat {
    if part < 1 then 0
    else
      var start := (part - 1) * partSize;
      if start >= size then 0 else Max(Min(start + partSize, size) - start, 0)
  }

  function UploadedBytes(size: nat, partSize: nat, parts: seq<int>): nat {
    if parts == [] then 0
    else UploadedBytes(size, partSize, parts[..|parts| - 1]) + PartBytes(size, partSize, parts[|parts| - 1])
  }

  method CalculateUploadedBytes(fileSize: nat, partSize: nat, partNumbers: seq<int>) returns (sum: nat)
    ensures sum == UploadedBytes(fileSize, partSize, partNumbers)
  {
    sum := 0;
    for i := 0 to |partNumbers|
      invariant sum == UploadedBytes(fileSize, partSize, partNumbers[..i])
    {
      assert partNumbers[..i + 1][..i] == partNumbers[..i];
      var partNumber := partNumbers[i];
      if partNumber < 1 {
        continue;
      }
      var start := (partNumber - 1) * partSize;
      if start >= fileSize {
        continue;
      }
      var end := Min(start + partSize, fileSize);
      sum := sum + Max(end - start, 0);
    }
    assert partNumbers[..|partNumbers|] == partNumbers;
  }

  lemma PartBytesIsChunkLength(file: Bytes, partSize: nat, part: nat)
    requires part >= 1
    ensures PartBytes(|file|, partSize, part) == |Chunk(file, part, partSize)|
    ensures PartBytes(|file|, partSize, part) == EndOf(|file|, partSize, part) - EndOf(|file|, partSize, part - 1)
  {
    ChunkIsSlice(file, part, partSize);
    PartStep(|file|, partSize, part);
  }

  /** The parts among 1..k for which `have` says so, weighed in bytes. */
  function Weighed(size: nat, partSize: nat, have: set<int>, k: nat): nat {
    if k == 0 then 0
    else Weighed(size, partSize, have, k - 1) + (if k in have then PartBytes(size, partSize, k) else 0)
  }

  lemma {:induction false} WeighedInsert(size: nat, partSize: nat, have: set<int>, p: int, k: nat)
    requires p !in have
    ensures Weighed(size, partSize, have + {p}, k) ==
              Weighed(size, partSize, have, k) + (if 1 <= p <= k then PartBytes(size, partSize, p) else 0)
  {
    if k == 0 {
    } else {
      WeighedInsert(size, partSize, have, p, k - 1);
    }
  }

  predicate Distinct(parts: seq<int>) {
    forall i, j :: 0 <= i < j < |parts| ==> parts[i] != parts[j]
  }

  function Elements(parts: seq<int>): set<int> {
    set p | p in parts
  }

  lemma {:induction false} UploadedIsWeighed(size: nat, partSize: nat, parts: seq<int>)
    requires partSize > 0 && Distinct(parts)
    ensures UploadedBytes(size, partSize, parts) == Weighed(size, partSize, Elements(parts), TotalParts(size, partSize))
    decreases |parts|
  {
    var n := TotalParts(size, partSize);
    if parts == [] {
      assert Elements(parts) == {};
      WeighedNothing(size, partSize, n);
    } else {
      var front, p := parts[..|parts| - 1], parts[|parts| - 1];
      UploadedIsWeighed(size, partSize, front);
      assert p !in front;
      assert parts == front + [p];
      assert Elements(parts) == Elements(front) + {p};
      WeighedInsert(size, partSize, Elements(front), p, n);
      if p > n {
        TotalPartsIsLeast(size, partSize);
        MulMono(n, p - 1, partSize);
      }
    }
  }

  lemma {:induction false} WeighedNothing(size: nat, partSize: nat, k: nat)
    ensures Weighed(size, partSize, {}, k) == 0
  {
    if k == 0 {
    } else {
      WeighedNothing(size, partSize, k - 1);
    }
  }

  /** The part numbers of 1..k that are not in `have`, ascending. */
  function Missing(have: set<int>, k: nat): seq<nat> {
    if k == 0 then [] else Missing(have, k - 1) + (if k in have then [] else [k])
  }

  lemma {:induction false} MissingIsComplement(size: nat, partSize: nat, have: set<int>, k: nat)
    ensures Weighed(size, partSize, have, k) + UploadedBytes(size, partSize, Missing(have, k)) == EndOf(size, partSize, k)
  {
    if k == 0 {
    } else {
      MissingIsComplement(size, partSize, have, k - 1);
      var file := seq(size, _ => 0);
      PartBytesIsChunkLength(file, partSize, k);
      var m := Missing(have, k - 1);
      if k in have {
        assert Missing(have, k) == m;
      } else {
        assert Missing(have, k) == m + [k] && (m + [k])[..|m|] == m;
      }
    }
  }

  lemma {:induction false} MissingIsExact(have: set<int>, k: nat)
    ensures forall p: nat :: p in Missing(have, k) <==> 1 <= p <= k && p !in have
    ensures forall i, j :: 0 <= i < j < |Missing(have, k)| ==> Missing(have, k)[i] < Missing(have, k)[j]
  {
    if k == 0 {
    } else {
      MissingIsExact(have, k - 1);
      var m := Missing(have, k - 1);
      assert forall i :: 0 <= i < |m| ==> m[i] in m;
    }
  }

  /**
   For every list of distinct recovered part numbers, in range or not, the recovered bytes and the bytes of the
   missing parts add up to the file.
   */
  lemma RecoveredPlusMissing(size: nat, partSize: nat, recovered: seq<int>)
    requires partSize > 0 && Distinct(recovered)
    ensures
      UploadedBytes(size, partSize, recovered)
      + UploadedBytes(size, partSize, Missing(Elements(recovered), TotalParts(size, partSize))) == size
  {
    UploadedIsWeighed(size, partSize, recovered);
    MissingIsComplement(size, partSize, Elements(recovered), TotalParts(size, partSize));
    TotalPartsIsLeast(size, partSize);
  }

  // ---------------------------------------------------------------- what the store assembles

  /** The object that completing parts 1..k assembles. */
  function Assembled(bodies: map<int, Bytes>, k: nat): Bytes
    requires forall p :: 1 <= p <= k ==> p in bodies
  {
    if k == 0 then [] else Assembled(bodies, k - 1) + bodies[k]
  }

  /** Bodies of the right sizes: each as long as the file's own part. */
  ghost predicate Sized(bodies: map<int, Bytes>, file: Bytes, partSize: nat, k: nat) {
    forall p: nat :: 1 <= p <= k ==> p in bodies && |bodies[p]| == |Chunk(file, p, partSize)|
  }

  lemma SameSplit(a: Bytes, x: Bytes, b: Bytes, y: Bytes)
    requires |a| == |b|
    ensures a + x == b + y <==> a == b && x == y
  {
    if a + x == b + y {
      assert a == (a + x)[..|a|] && b == (b + y)[..|b|];
      assert x == (a + x)[|a|..] && y == (b + y)[|b|..];
    }
  }

  lemma {:induction false} AssembledIff(bodies: map<int, Bytes>, file: Bytes, partSize: nat, k: nat)
    requires Sized(bodies, file, partSize, k)
    ensures Assembled(bodies, k) == Joined(file, partSize, k) <==>
              forall p: nat :: 1 <= p <= k ==> bodies[p] == Chunk(file, p, partSize)
    ensures |Assembled(bodies, k)| == |Joined(file, partSize, k)|
  {
    if k == 0 {
    } else {
      AssembledIff(bodies, file, partSize, k - 1);
      SameSplit(Assembled(bodies, k - 1), bodies[k], Joined(file, partSize, k - 1), Chunk(file, k, partSize));
    }
  }

  /**
   The session is found again by bucket, key, size and part size, not by content. With bodies of the sizes that
   implies, the upload resumed for `file` assembles `file` exactly when every recovered part holds this file's chunk.
   */
  lemma ResumeAssemblesFileIff(file: Bytes, partSize: nat, recovered: map<int, Bytes>, bodies: map<int, Bytes>)
    requires partSize > 0
    requires
      var n := TotalParts(|file|, partSize);
      && Sized(bodies, file, partSize, n)
      && (forall p :: p in recovered ==> 1 <= p <= n && bodies[p] == recovered[p])
      && forall p: nat :: 1 <= p <= n && p !in recovered ==> bodies[p] == Chunk(file, p, partSize)
    ensures Assembled(bodies, TotalParts(|file|, partSize)) == file <==>
              forall p: nat :: p in recovered ==> p >= 1 && recovered[p] == Chunk(file, p, partSize)
  {
    var n := TotalParts(|file|, partSize);
    ChunksTile(file, partSize);
    AssembledIff(bodies, file, partSize, n);
  }
}
