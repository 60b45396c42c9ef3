/**
  The chunk loop of a download: what the local file holds when it stops.
 */
module Download {

  type Bytes = seq<bv8>

  datatype Outcome = Done(file: Bytes) | Failed

  function Min(a: nat, b: nat): nat {
    if a <= b then a else b
  }

  /** What a server that honours ranges sends for `count` bytes at `offset`. */
  function Range(remote: Bytes, offset: nat, count: nat): Bytes {
    if offset >= |remote| then [] else remote[offset..Min(offset + count, |remote|)]
  }

  /** The least whole number of chunks that covers `size` bytes, in bytes. */
  function Covering(size: nat, chunk: nat): (bytes: nat)
    requires chunk > 0
    ensures size <= bytes < size + chunk
  {
    if size == 0 then 0
    else if size <= chunk then chunk
    else chunk + Covering(size - chunk, chunk)
  }

  /**
    How far a download reaches when the server said `total` beforehand and zero
    stands for not knowing: a known size stops it at the end of the chunk that
    covers it.
   */
  function Reach(size: nat, total: nat, chunk: nat): nat
    requires chunk > 0
  {
    if total == 0 then size else Min(size, Covering(total, chunk))
  }

  predicate IsWholeChunks(bytes: nat, chunk: nat)
    requires chunk > 0
  {
    bytes == 0 || (bytes >= chunk && IsWholeChunks(bytes - chunk, chunk))
  }

  /** The offsets asked for: the start of every chunk within the file, and at its end if it ends a chunk. */
  predicate Asked(size: nat, total: nat, chunk: nat, offset: nat)
    requires chunk > 0
  {
    IsWholeChunks(offset, chunk) && offset <= size && (total > 0 ==> offset < total)
  }

  lemma {:induction false} ChunksApart(a: nat, b: nat, chunk: nat)
    requires chunk > 0 && IsWholeChunks(a, chunk) && IsWholeChunks(b, chunk) && a < b
    ensures a + chunk <= b
  {
    if a > 0 {
      ChunksApart(a - chunk, b - chunk, chunk);
    }
  }

  lemma {:induction false} ChunksBetween(a: nat, chunk: nat)
    requires chunk > 0 && IsWholeChunks(a, chunk)
    ensures forall b: nat | a < b && IsWholeChunks(b, chunk) :: a + chunk <= b
  {
    forall b: nat | a < b && IsWholeChunks(b, chunk) {
      ChunksApart(a, b, chunk);
    }
  }

  /**
    Fetch `remote` in chunks. `failing` holds the offsets at which the server
    answers with an error instead of bytes.
   */
  method DownloadTo(remote: Bytes, total: nat, chunk: nat, failing: set<nat>) returns (outcome: Outcome)
    requires chunk > 0
    ensures outcome.Done? ==> outcome.file == remote[..Reach(|remote|, total, chunk)]
    ensures outcome.Failed? <==> exists o | o in failing :: Asked(|remote|, total, chunk, o)
  {
    var file: Bytes := [];
    var offset := 0;
    while true
      invariant offset <= |remote| && file == remote[..offset] && IsWholeChunks(offset, chunk)
      invariant forall o | o in failing && o < offset :: !Asked(|remote|, total, chunk, o)
      invariant total > 0 ==> offset < total && offset + Covering(total - offset, chunk) == Covering(total, chunk)
      decreases |remote| - offset
    {
      if offset in failing {
        return Failed;
      }
      ChunksBetween(offset, chunk);
      var bytes := Range(remote, offset, chunk);
      if bytes == [] {
        break;
      }
      file := file + bytes;
      offset := offset + |bytes|;
      assert file == remote[..offset];
      if |bytes| < chunk || (total > 0 && offset >= total) {
        break;
      }
    }
    return Done(file);
  }

  /**
    When the local file is the remote one: whenever the size was unknown, or the
    chunks that cover the announced size cover the file. A size announced too
    small cuts the file short without an error.
   */
  lemma WholeFileExactlyWhen(remote: Bytes, total: nat, chunk: nat)
    requires chunk > 0
    ensures remote[..Reach(|remote|, total, chunk)] == remote <==>
            total == 0 || |remote| <= Covering(total, chunk)
    ensures total == 0 || total >= |remote| ==> remote[..Reach(|remote|, total, chunk)] == remote
  {
    assert remote[..|remote|] == remote;
    assert |remote[..Reach(|remote|, total, chunk)]| == Reach(|remote|, total, chunk);
  }
}
