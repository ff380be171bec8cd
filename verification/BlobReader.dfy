/**
 Permanent blob backends and the range reader that blobmigrate streams an object through.
 A backend is the map of the objects it holds.  Any call on one that is not reliable may fail, and one that
 is not honest answers a range read with anything at all.
 */
module BlobReader {
  type Bytes = seq<bv8>

  /** SHA-256 and hexadecimal printing, of which nothing is assumed here. */
  datatype Hashing = Hashing(sha: Bytes -> Bytes, hex: Bytes -> string) {
    function KeyOf(content: Bytes): string {
      hex(sha(content))
    }
  }

  type Objects = map<string, Bytes>

  datatype RangeReply = Unreadable | Range(data: Bytes, total: int)

  /** The bytes [offset, min(offset+limit, total)), with both backends' treatment of odd arguments. */
  function RangeOf(content: Bytes, offset: int, limit: int): (data: Bytes)
    ensures limit > 0 ==> |data| <= limit
    ensures var start := if offset < 0 then 0 else offset;
            && (forall i | 0 <= i < |data| :: start + i < |content| && data[i] == content[start + i])
            && (start + |data| >= |content| || |data| == limit)
  {
    var start := if offset < 0 then 0 else offset;
    if start >= |content| then []
    else if 0 < limit < |content| - start then content[start..start + limit]
    else content[start..]
  }

  datatype PutReply = PutFailed | Put(key: string, size: int, digest: Bytes)

  datatype BackendKind = LocalFS | S3

  class BlobBackend {
    const kind: BackendKind
    const honest: bool
    const reliable: bool
    const hash: Hashing
    var objects: Objects

    constructor (kind: BackendKind, honest: bool, reliable: bool, hash: Hashing, objects: Objects)
      ensures this.kind == kind && this.honest == honest && this.reliable == reliable
      ensures this.hash == hash && this.objects == objects
    {
      this.kind, this.honest, this.reliable := kind, honest, reliable;
      this.hash, this.objects := hash, objects;
    }

    /** The object is there with this size, and nothing keeps it from being read. */
    predicate Offers(key: string, size: int)
      reads this
    {
      honest && reliable && key in objects && |objects[key]| == size
    }

    method GetRange(key: string, offset: int, limit: int) returns (reply: RangeReply)
      ensures honest && reply.Range? ==>
                key in objects && reply == Range(RangeOf(objects[key], offset, limit), |objects[key]|)
      ensures honest && reliable && key in objects ==> reply.Range?
    {
      if !honest {
        return *;
      }
      var reachable: bool := *;
      if key !in objects || !(reliable || reachable) {
        return Unreadable;
      }
      return Range(RangeOf(objects[key], offset, limit), |objects[key]|);
    }

    /** Stores a stream under the key of its content.  An object that is already there is never
        written again: LocalFS does not look at it, S3 compares its size.  `mishap` says that some call on
        the store fails, be it before, during or after the write. */
    method PutReader(reader: RangeReader, mishap: bool) returns (reply: PutReply)
      requires reader.Valid() && reader.backend != this && reader.emitted == [] && reader.buffer == []
      modifies this`objects, reader
      ensures reader.backend.objects == old(reader.backend.objects)
      ensures || objects == old(objects)
              || exists content ::
                   && hash.KeyOf(content) !in old(objects)
                   && objects == old(objects)[hash.KeyOf(content) := content]
      ensures reply.Put? ==>
                exists content :: && reader.Streams(content)
                                  && reply == Put(hash.KeyOf(content), |content|, hash.sha(content))
                                  && objects == (if reply.key in old(objects) then old(objects)
                                                 else old(objects)[reply.key := content])
                                  && (kind == S3 ==> |objects[reply.key]| == |content|)
      ensures mishap ==> reply.PutFailed?
      ensures !mishap && kind == LocalFS && reader.total <= 0 ==> reply.Put?
      ensures !mishap && old(reader.Readable()) ==>
                var content := old(reader.Whole());
                && (reply.Put? <==> kind == LocalFS || hash.KeyOf(content) !in old(objects)
                                    || |old(objects)[hash.KeyOf(content)]| == |content|)
    {
      var ok, content := reader.ReadAll(262144);
      if !ok {
        return PutFailed;
      }
      var key := hash.KeyOf(content);
      if mishap {
        // A write that took effect may still be reported as failed.
        var committed: bool := *;
        if committed && key !in objects {
          objects := objects[key := content];
        }
        return PutFailed;
      }
      if key !in objects {
        objects := objects[key := content];
      } else if kind == S3 && |objects[key]| != |content| {
        return PutFailed;
      }
      return Put(key, |content|, hash.sha(content));
    }
  }

  const MIGRATION_READ_CHUNK: int := 4194304

  datatype ReadStatus = Fine | EndOfStream | Failed

  class RangeReader {
    const backend: BlobBackend
    const objectKey: string
    const total: int
    var offset: int
    var buffer: Bytes
    ghost var emitted: Bytes

    constructor (backend: BlobBackend, objectKey: string, total: int)
      ensures this.backend == backend && this.objectKey == objectKey && this.total == total
      ensures Valid() && emitted == [] && buffer == []
    {
      this.backend, this.objectKey, this.total := backend, objectKey, total;
      offset, buffer, emitted := 0, [], [];
    }

    /** However the backend answers, no more than the expected total is emitted or buffered; the bytes of an
        honest one are the object's, in order, up to offset and beyond. */
    ghost predicate Valid()
      reads this, backend
    {
      && |emitted| == offset
      && (offset + |buffer| > 0 ==> offset + |buffer| <= total && (backend.honest ==> Slices()))
    }

    ghost predicate Slices()
      reads this, backend
    {
      && objectKey in backend.objects && |backend.objects[objectKey]| == total
      && |emitted| + |buffer| <= total
      && emitted == backend.objects[objectKey][..|emitted|]
      && buffer == backend.objects[objectKey][|emitted|..|emitted| + |buffer|]
    }

    /** `content` is a whole stream: as many bytes as were expected, and the stored object's if the backend is
        honest. */
    ghost predicate Streams(content: Bytes)
      reads this, backend
    {
      && |content| == (if total <= 0 then 0 else total)
      && (backend.honest && total > 0 ==> objectKey in backend.objects && content == backend.objects[objectKey])
    }

    /** Nothing keeps the whole stream from being read. */
    predicate Readable()
      reads this, backend
    {
      total <= 0 || backend.Offers(objectKey, total)
    }

    function Whole(): Bytes
      requires Readable()
      reads this, backend
    {
      if total <= 0 then [] else backend.objects[objectKey]
    }

    function Wanted(): int
      reads this
    {
      if total - offset < MIGRATION_READ_CHUNK then total - offset else MIGRATION_READ_CHUNK
    }

    /** Takes a backend's reply, whatever it is, and accepts it only if it has the expected total and
        exactly the bytes asked for. */
    method Refill(reply: RangeReply) returns (ok: bool)
      requires buffer == [] && offset < total
      modifies this`buffer
      ensures ok <==> reply.Range? && reply.total == total && |reply.data| == Wanted()
      ensures buffer == if ok then reply.data else []
    {
      if reply.Unreadable? || reply.total != total || |reply.data| != Wanted() {
        return false;
      }
      buffer := reply.data;
      return true;
    }

    /** The refill branch of Read. */
    method Fetch() returns (status: ReadStatus)
      requires Valid() && buffer == []
      modifies this`buffer
      ensures Valid()
      ensures status == EndOfStream <==> offset >= total
      ensures status == Fine <==> buffer != []
      ensures status == Fine ==> |buffer| == Wanted()
      ensures Readable() ==> status != Failed
    {
      if offset >= total {
        return EndOfStream;
      }
      var reply := backend.GetRange(objectKey, offset, Wanted());
      var ok := Refill(reply);
      return if ok then Fine else Failed;
    }

    method Read(p: array<bv8>) returns (n: nat, status: ReadStatus)
      requires Valid()
      modifies this`offset, this`buffer, this`emitted, p
      ensures Valid()
      ensures n <= p.Length && p[n..] == old(p[n..])
      ensures emitted == old(emitted) + p[..n]
      ensures p.Length == 0 ==> n == 0 && status == Fine && buffer == old(buffer)
      ensures p.Length > 0 ==> (status == EndOfStream <==> old(buffer) == [] && old(offset) >= total)
      ensures p.Length > 0 && status == Fine ==> n > 0
      ensures status != Fine ==> n == 0 && buffer == old(buffer)
      ensures old(buffer) != [] ==> status == Fine
      ensures p.Length > 0 && status == Fine && old(buffer) != [] ==>
                n == if p.Length < |old(buffer)| then p.Length else |old(buffer)|
      ensures p.Length > 0 && status == Fine && old(buffer) == [] ==>
                var left := if total - old(offset) < 4194304 then total - old(offset) else 4194304;
                n == if p.Length < left then p.Length else left
      ensures Readable() ==> status != Failed
    {
      if p.Length == 0 {
        return 0, Fine;
      }
      if buffer == [] {
        status := Fetch();
        if status != Fine {
          return 0, status;
        }
      }
      n := Emit(p);
      return n, Fine;
    }

    /** The copy at the end of Read: as much of the buffer as the destination takes. */
    method Emit(p: array<bv8>) returns (n: nat)
      requires Valid() && buffer != [] && p.Length > 0
      modifies this`offset, this`buffer, this`emitted, p
      ensures Valid() && 0 < n <= p.Length
      ensures n == if p.Length < |old(buffer)| then p.Length else |old(buffer)|
      ensures p[n..] == old(p[n..]) && emitted == old(emitted) + p[..n]
    {
      n := CopyInto(p, buffer);
      if backend.honest {
        SliceAdvance(backend.objects[objectKey], emitted, buffer, n);
      }
      emitted := emitted + buffer[..n];
      buffer := buffer[n..];
      offset := offset + n;
    }

    /** Reads to the end with a buffer of any size.  Whatever the backend answers, it is either an error or
        exactly the expected number of bytes, and they are the object's if the backend is honest. */
    method ReadAll(size: nat) returns (ok: bool, content: Bytes)
      requires Valid() && emitted == [] && buffer == [] && size > 0
      modifies this`offset, this`buffer, this`emitted
      ensures Valid()
      ensures total <= 0 ==> ok
      ensures ok ==> Streams(content) && content == emitted
      ensures Readable() ==> ok && content == Whole()
    {
      content := [];
      var p := new bv8[size];
      while true
        invariant Valid() && content == emitted && fresh(p) && p.Length == size
        decreases total - offset
      {
        var n, status := Read(p);
        if status == Failed {
          return false, [];
        }
        if status == EndOfStream {
          break;
        }
        content := content + p[..n];
      }
      return true, content;
    }
  }

  method CopyInto(p: array<bv8>, from: Bytes) returns (n: nat)
    modifies p
    ensures n == if p.Length < |from| then p.Length else |from|
    ensures p[..n] == from[..n] && p[n..] == old(p[n..])
  {
    n := if p.Length < |from| then p.Length else |from|;
    forall i | 0 <= i < n {
      p[i] := from[i];
    }
  }

  lemma SliceAdvance(stored: Bytes, emitted: Bytes, buffer: Bytes, n: nat)
    requires n <= |buffer| && |emitted| + |buffer| <= |stored|
    requires emitted == stored[..|emitted|] && buffer == stored[|emitted|..|emitted| + |buffer|]
    ensures emitted + buffer[..n] == stored[..|emitted| + n]
    ensures buffer[n..] == stored[|emitted| + n..|emitted| + |buffer|]
  {
  }

  /** Accumulates the differences of all positions, as a constant-time comparison does. */
  method EqualBytes(a: Bytes, b: Bytes) returns (same: bool)
    ensures same <==> a == b
  {
    if |a| != |b| {
      return false;
    }
    var different: bv8 := 0;
    var i := 0;
    while i < |a|
      invariant 0 <= i <= |a|
      invariant different == 0 <==> a[..i] == b[..i]
    {
      assert a[..i + 1] == a[..i] + [a[i]] && b[..i + 1] == b[..i] + [b[i]];
      assert (different | (a[i] ^ b[i])) == 0 <==> different == 0 && a[i] == b[i];
      different := different | (a[i] ^ b[i]);
      i := i + 1;
    }
    assert a[..i] == a && b[..i] == b;
    return different == 0;
  }
}
