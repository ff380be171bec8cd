/**
 Downloading one resource: the ladder of request sizes, the single-request path and the buffer that
 refuses to grow past its limit.
 */
module GiftDownload {
  import opened Wrappers

  const UNIT := 4096
  const MAX_PART := 524288
  const WINDOW := 1048576

  // ----- the ladder

  /** The sizes a server accepts for a non-precise request: 4 KiB, doubled up to seven times. */
  function Rung(k: nat): (n: nat)
    ensures n >= UNIT
  {
    if k == 0 then UNIT else 2 * Rung(k - 1)
  }

  ghost predicate IsRung(n: int) {
    exists k: nat :: k <= 7 && n == Rung(k)
  }

  lemma {:induction false} RungsRise(j: nat, k: nat)
    requires j < k
    ensures Rung(j) < Rung(k)
  {
    if j + 1 < k {
      RungsRise(j, k - 1);
    }
  }

  lemma TopRung()
    ensures Rung(7) == MAX_PART
  {
    assert Rung(3) == 32768;
    assert Rung(5) == 131072;
  }

  lemma RungsAre(k: nat)
    requires k <= 7
    ensures Rung(k) in {4096, 8192, 16384, 32768, 65536, 131072, 262144, 524288}
  {
    assert Rung(1) == 8192;
    assert Rung(3) == 32768;
    assert Rung(5) == 131072;
  }

  /** Every rung divides the window of 1 MiB, within which the requests of a download must stay. */
  lemma {:induction false} RungDividesWindow(k: nat)
    requires k <= 7
    ensures exists m: nat :: Rung(k) * m == WINDOW
    decreases 7 - k
  {
    if k == 7 {
      TopRung();
      assert Rung(7) * 2 == WINDOW;
    } else {
      RungDividesWindow(k + 1);
      var m: nat :| Rung(k + 1) * m == WINDOW;
      assert Rung(k) * (2 * m) == WINDOW;
    }
  }

  /** A resource of this size is fetched with one request of partSize bytes. */
  predicate TakesOneRequest(expectedSize: int, partSize: int) {
    0 < expectedSize < partSize
  }

  /** The smallest rung strictly above a known size below 512 KiB, and 512 KiB for every other size; so one
      request is made for exactly the known sizes below 512 KiB. */
  method DownloadPartSize(expectedSize: int) returns (partSize: int)
    ensures IsRung(partSize)
    ensures partSize in {4096, 8192, 16384, 32768, 65536, 131072, 262144, 524288}
    ensures exists m: nat :: partSize * m == WINDOW
    ensures 0 < expectedSize < MAX_PART ==>
      expectedSize < partSize && forall rung | IsRung(rung) && expectedSize < rung :: partSize <= rung
    ensures expectedSize <= 0 || expectedSize >= MAX_PART ==> partSize == MAX_PART
    ensures TakesOneRequest(expectedSize, partSize) <==> 0 < expectedSize < MAX_PART
  {
    TopRung();
    if expectedSize <= 0 || expectedSize >= MAX_PART {
      RungDividesWindow(7);
      RungsAre(7);
      return MAX_PART;
    }
    partSize := UNIT;
    ghost var k := 0;
    while partSize <= expectedSize && partSize < MAX_PART
      invariant k <= 7 && partSize == Rung(k)
      invariant forall j: nat | j < k :: Rung(j) <= expectedSize
      decreases 7 - k
    {
      partSize := partSize * 2;
      k := k + 1;
    }
    RungDividesWindow(k);
    RungsAre(k);
    forall rung | IsRung(rung) && expectedSize < rung
      ensures partSize <= rung
    {
      var j: nat :| j <= 7 && rung == Rung(j);
      if k < j {
        RungsRise(k, j);
      }
    }
  }

  lemma HalfIsTooSmall(expectedSize: int, partSize: int)
    requires IsRung(partSize) && forall rung | IsRung(rung) && expectedSize < rung :: partSize <= rung
    ensures partSize == 4096 || partSize / 2 <= expectedSize
  {
    var k: nat :| k <= 7 && partSize == Rung(k);
    if k > 0 {
      assert IsRung(Rung(k - 1)) && Rung(k) == 2 * Rung(k - 1);
    }
  }

  // ----- the bounded buffer

  function Concat<T>(chunks: seq<seq<T>>): seq<T> {
    if chunks == [] then [] else chunks[0] + Concat(chunks[1..])
  }

  lemma {:induction false} ConcatOne<T>(chunks: seq<seq<T>>, chunk: seq<T>)
    ensures Concat(chunks + [chunk]) == Concat(chunks) + chunk
  {
    if chunks == [] {
      assert Concat([chunk]) == chunk + [];
    } else {
      assert (chunks + [chunk])[1..] == chunks[1..] + [chunk];
      ConcatOne(chunks[1..], chunk);
    }
  }

  /** How much of a stream a buffer may hold. */
  function Room(max: int, length: nat): nat {
    if max <= 0 then 0 else if length < max then length else max
  }

  class BoundedBuffer {
    var contents: seq<int>
    const max: int

    constructor (max: int)
      ensures this.max == max && contents == []
    {
      this.max := max;
      contents := [];
    }

    /** Takes what there is room for; fails when it cannot take everything, and when it is already full. */
    method Write(p: seq<int>) returns (written: nat, failed: bool)
      modifies this
      ensures written <= |p| && contents == old(contents) + p[..written]
      ensures failed <==> |old(contents)| >= max || |old(contents)| + |p| > max
      ensures written == if |old(contents)| >= max then 0 else Room(max - |old(contents)|, |p|)
    {
      var remaining := max - |contents|;
      if remaining <= 0 {
        return 0, true;
      }
      if |p| > remaining {
        contents := contents + p[..remaining];
        return remaining, true;
      }
      contents := contents + p;
      return |p|, false;
    }
  }

  /** The writes all succeed exactly when nothing is written to a full buffer and the total fits. A chunk
      of no bytes is refused by a full buffer too. */
  predicate Fits<T>(chunks: seq<seq<T>>, max: int) {
    |Concat(chunks)| <= max && forall i | 0 <= i < |chunks| :: |Concat(chunks[..i])| < max
  }

  /** A stream written chunk by chunk until a write fails: the buffer always holds the longest prefix of
      the stream so far that its limit allows. */
  method Stream(buffer: BoundedBuffer, chunks: seq<seq<int>>) returns (failed: bool, taken: nat)
    requires buffer.contents == []
    modifies buffer
    ensures taken <= |chunks| && (!failed ==> taken == |chunks|)
    ensures var stream := Concat(chunks[..taken]); buffer.contents == stream[..Room(buffer.max, |stream|)]
    ensures !failed <==> chunks == [] || Fits(chunks, buffer.max)
    ensures !failed ==> buffer.contents == Concat(chunks)
  {
    taken := 0;
    while taken < |chunks|
      invariant taken <= |chunks|
      invariant buffer.contents == Concat(chunks[..taken])
      invariant taken > 0 ==> |buffer.contents| <= buffer.max
      invariant forall i | 0 <= i < taken :: |Concat(chunks[..i])| < buffer.max
    {
      var chunk := chunks[taken];
      assert chunks[..taken + 1] == chunks[..taken] + [chunk];
      ConcatOne(chunks[..taken], chunk);
      var before := |buffer.contents|;
      var written, refused := buffer.Write(chunk);
      taken := taken + 1;
      if refused {
        if before < buffer.max {
          ConcatMonotone(chunks, taken);
        }
        return true, taken;
      }
    }
    assert chunks[..taken] == chunks;
    return false, taken;
  }

  lemma {:induction false} ConcatMonotone<T>(chunks: seq<seq<T>>, n: nat)
    requires n <= |chunks|
    ensures |Concat(chunks[..n])| <= |Concat(chunks)|
    decreases |chunks| - n
  {
    if n == |chunks| {
      assert chunks[..n] == chunks;
    } else {
      assert chunks[..n + 1] == chunks[..n] + [chunks[n]];
      ConcatOne(chunks[..n], chunks[n]);
      ConcatMonotone(chunks, n + 1);
    }
  }

  /** For chunks that hold something, fitting is only a matter of the total. */
  lemma {:induction false} FitsIff<T>(chunks: seq<seq<T>>, max: int)
    requires forall i | 0 <= i < |chunks| :: chunks[i] != []
    ensures Fits(chunks, max) <==> |Concat(chunks)| <= max
  {
    forall i | 0 <= i < |chunks|
      ensures |Concat(chunks[..i])| < |Concat(chunks)|
    {
      assert chunks[..i + 1] == chunks[..i] + [chunks[i]];
      ConcatOne(chunks[..i], chunks[i]);
      ConcatMonotone(chunks, i + 1);
    }
  }

  // ----- the download

  datatype DownloadError = ExceedsLimit

  /** The smallest size on the ladder that is larger than expected. */
  predicate IsPartFor(expectedSize: int, partSize: nat) {
    && partSize in {4096, 8192, 16384, 32768, 65536, 131072, 262144, 524288}
    && expectedSize < partSize && (partSize == 4096 || partSize / 2 <= expectedSize)
  }

  /** One request's worth of a file, unless that is over the limit. */
  function FirstPart(file: seq<int>, partSize: nat, maxBytes: int): Result<seq<int>, DownloadError> {
    var length := if |file| < partSize then |file| else partSize;
    if length <= maxBytes then Ok(file[..length]) else Err(ExceedsLimit)
  }

  /** A file behind a server that answers one request for `limit` bytes with as much as it has of them, or
      streams the file in chunks of at least one byte. A result of the expected size is the whole file: a
      request that cut the file short would have returned more than that. */
  method Download(file: seq<int>, chunks: seq<seq<int>>, expectedSize: int, maxBytes: int)
    returns (r: Result<seq<int>, DownloadError>)
    requires Concat(chunks) == file && forall i | 0 <= i < |chunks| :: chunks[i] != []
    requires 0 < maxBytes
    ensures |file| == expectedSize || !(0 < expectedSize < 524288) ==>
      r == if |file| <= maxBytes then Ok(file) else Err(ExceedsLimit)
    ensures 0 < expectedSize < 524288 ==>
      exists partSize: nat :: IsPartFor(expectedSize, partSize) && r == FirstPart(file, partSize, maxBytes)
    ensures r.Ok? ==> |r.value| <= maxBytes && r.value <= file
    ensures r.Ok? && |r.value| == expectedSize ==> r.value == file
  {
    var partSize := DownloadPartSize(expectedSize);
    if TakesOneRequest(expectedSize, partSize) {
      HalfIsTooSmall(expectedSize, partSize);
      var part := file[..if |file| < partSize then |file| else partSize];
      assert |file| <= partSize ==> part == file;
      r := if |part| > maxBytes then Err(ExceedsLimit) else Ok(part);
      assert IsPartFor(expectedSize, partSize) && r == FirstPart(file, partSize, maxBytes);
      return;
    }
    FitsIff(chunks, maxBytes);
    var buffer := new BoundedBuffer(maxBytes);
    var failed, taken := Stream(buffer, chunks);
    if failed {
      return Err(ExceedsLimit);
    }
    return Ok(buffer.contents);
  }
}
