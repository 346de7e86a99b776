/** Byte ranges of an externalized result, checked chunk by chunk against hashes
    taken when it was stored. */
module ChunkedRange {
  import opened Basics
  import Checkpoints
  import opened Utf8

  /** SHA-256 as a function that never maps two byte strings to one digest. */
  datatype Hash = Sha256(of: seq<byte>)

  const CHUNK := 50 * 1024

  /** Whose result it is. */
  datatype Scope = Scope(userId: string, chatId: string, runId: string)

  /** What an envelope says of its body, next to the three fields that are the same in
      every one (version, media type, encoding). Times are seconds, 0 for no time. */
  datatype Header = Header(
    resultRef: string, scope: Scope, actionId: string, toolName: string,
    resultBytes: int, sha256: Hash, createdAt: int, expiresAt: int)

  datatype Envelope = Envelope(header: Header, body: seq<byte>)

  datatype Metadata = Metadata(header: Header, chunkBytes: int, chunks: seq<Hash>)

  /** The part of both checks that speaks of neither body nor chunks. `refs` is the
      pattern of references. */
  predicate HeaderIsValid(refs: string -> bool, h: Header) {
    var texts := [h.scope.userId, h.scope.chatId, h.scope.runId, h.actionId];
    refs(h.resultRef) && (forall i | 0 <= i < |texts| :: !Checkpoints.IsBlank(texts[i])) &&
    Checkpoints.IsActionName(h.toolName) && h.createdAt != 0 && h.expiresAt > h.createdAt
  }

  predicate EnvelopeIsValid(refs: string -> bool, e: Envelope) {
    HeaderIsValid(refs, e.header) && e.header.resultBytes == |e.body| && e.header.sha256 == Sha256(e.body)
  }

  function ChunkCount(n: nat): nat {
    (n + CHUNK - 1) / CHUNK
  }

  /** Where chunk k begins. */
  function At(k: nat): nat {
    k * CHUNK
  }

  function ChunkEnd(n: nat, k: nat): nat {
    if At(k + 1) < n then At(k + 1) else n
  }

  lemma {:induction false} AtRises(j: nat, k: nat)
    ensures At(k + 1) == At(k) + CHUNK
    ensures j <= k ==> At(j) <= At(k)
  {
  }

  lemma ChunkStartsInside(n: nat, k: nat)
    ensures k < ChunkCount(n) <==> At(k) < n
    ensures k < ChunkCount(n) ==> At(k) < ChunkEnd(n, k) <= n
  {
  }

  function Chunk(body: seq<byte>, k: nat): seq<byte>
    requires k < ChunkCount(|body|)
  {
    ChunkStartsInside(|body|, k);
    body[At(k)..ChunkEnd(|body|, k)]
  }

  function ChunkHashes(body: seq<byte>): (r: seq<Hash>)
    ensures |r| == ChunkCount(|body|) && forall k | 0 <= k < |r| :: r[k] == Sha256(Chunk(body, k))
  {
    seq(ChunkCount(|body|), k requires 0 <= k < ChunkCount(|body|) => Sha256(Chunk(body, k)))
  }

  function MetadataOf(e: Envelope): Metadata {
    Metadata(e.header, CHUNK, ChunkHashes(e.body))
  }

  method MetadataFromEnvelope(e: Envelope) returns (m: Metadata)
    ensures m == MetadataOf(e)
  {
    var body := e.body;
    hide At, ChunkCount;
    var chunks: seq<Hash> := [];
    var start := 0;
    assert At(0) == 0 by { AtZero(); }
    while start < |body|
      invariant start == At(|chunks|) && |chunks| <= ChunkCount(|body|)
      invariant chunks == ChunkHashes(body)[..|chunks|]
      decreases |body| - start
    {
      ChunkStartsInside(|body|, |chunks|);
      AtRises(0, |chunks|);
      var end := start + CHUNK;
      if end > |body| {
        end := |body|;
      }
      chunks := chunks + [Sha256(body[start..end])];
      start := start + CHUNK;
    }
    ChunkStartsInside(|body|, |chunks|);
    m := Metadata(e.header, CHUNK, chunks);
  }

  /** The check of metadata read back; nothing in it tells whether the body is the one
      that was hashed. */
  predicate Validated(refs: string -> bool, m: Metadata) {
    HeaderIsValid(refs, m.header) && m.header.resultBytes >= 0 && m.chunkBytes == CHUNK &&
    |m.chunks| == (if m.header.resultBytes > 0 then (m.header.resultBytes + m.chunkBytes - 1) / m.chunkBytes else 0)
  }

  /** An envelope may be stored exactly when its metadata will pass the check of
      every later read and its length and hash are those of its body. */
  lemma StoredMetadataValidates(refs: string -> bool, e: Envelope)
    ensures EnvelopeIsValid(refs, e) <==>
      Validated(refs, MetadataOf(e)) && e.header.resultBytes == |e.body| && e.header.sha256 == Sha256(e.body)
  {
    assert |e.body| == 0 ==> ChunkCount(|e.body|) == 0;
  }

  lemma AtZero()
    ensures At(0) == 0
  {
  }

  /** The bytes of whole chunks. */
  function Span(body: seq<byte>, first: nat, last: nat): seq<byte>
    requires first <= last < ChunkCount(|body|)
  {
    AtRises(first, last);
    ChunkStartsInside(|body|, last);
    body[At(first)..ChunkEnd(|body|, last)]
  }

  lemma SliceOfSlice<T>(s: seq<T>, a: nat, b: nat, low: nat, high: nat)
    requires a <= b <= |s| && low <= high && a + high <= b
    ensures s[a..b][low..high] == s[a + low..a + high]
  {
    forall i | 0 <= i < high - low ensures s[a..b][low..high][i] == s[a + low..a + high][i] {
      assert s[a..b][low + i] == s[a + low + i];
    }
  }

  lemma TwoSlices<T>(s: seq<T>, a: nat, b: nat, c: nat)
    requires a <= b <= c <= |s|
    ensures s[a..b] + s[b..c] == s[a..c]
  {
  }

  /** The bytes of a span before its chunk k, and chunk k itself. */
  lemma ChunkInSpan(body: seq<byte>, first: nat, last: nat, k: nat)
    requires first <= k <= last < ChunkCount(|body|)
    ensures var local, size := At(k) - At(first), ChunkEnd(|body|, k) - At(k);
      0 <= local && 0 <= size && local + size <= |Span(body, first, last)| &&
      Span(body, first, last)[local..local + size] == Chunk(body, k)
  {
    hide At, ChunkCount;
    AtRises(first, k);
    AtRises(k, last);
    AtRises(k + 1, last + 1);
    ChunkStartsInside(|body|, k);
    ChunkStartsInside(|body|, last);
    AtRises(k, k);
    assert ChunkEnd(|body|, k) <= ChunkEnd(|body|, last);
    assert |Span(body, first, last)| == ChunkEnd(|body|, last) - At(first);
    SliceOfSlice(body, At(first), ChunkEnd(|body|, last), At(k) - At(first), ChunkEnd(|body|, k) - At(first));
  }

  lemma OneMoreChunk(body: seq<byte>, first: nat, k: nat, aligned: seq<byte>, local: nat, size: nat)
    requires first <= k < ChunkCount(|body|) && local == At(k) - At(first) && size == ChunkEnd(|body|, k) - At(k)
    requires local + size <= |aligned| && At(first) + local <= |body|
    requires aligned[..local] == body[At(first)..At(first) + local]
    requires aligned[local..local + size] == Chunk(body, k)
    ensures At(first) + local + size <= |body| && aligned[..local + size] == body[At(first)..At(first) + local + size]
  {
    hide At, ChunkCount;
    ChunkStartsInside(|body|, k);
    TwoSlices(aligned, 0, local, local + size);
    TwoSlices(body, At(first), At(k), ChunkEnd(|body|, k));
  }

  lemma SpanIsWhole(body: seq<byte>, first: nat, last: nat, aligned: seq<byte>)
    requires first <= last < ChunkCount(|body|)
    requires var size := ChunkEnd(|body|, last) - At(first);
      0 <= size == |aligned| && At(first) + size <= |body| && aligned[..size] == body[At(first)..At(first) + size]
    ensures aligned == Span(body, first, last)
  {
    hide At, ChunkCount;
    assert aligned[..|aligned|] == aligned;
  }

  lemma SpanLength(body: seq<byte>, first: nat, last: nat)
    requires first <= last < ChunkCount(|body|)
    ensures |Span(body, first, last)| == ChunkEnd(|body|, last) - At(first)
  {
    hide At, ChunkCount;
    AtRises(first, last);
    ChunkStartsInside(|body|, last);
  }

  /** Chunks verify exactly when they are the bytes that were stored. */
  method VerifyChunks(m: Metadata, first: int, last: int, aligned: seq<byte>, ghost body: seq<byte>) returns (ok: bool)
    requires m.chunkBytes == CHUNK && m.header.resultBytes == |body| && m.chunks == ChunkHashes(body)
    ensures ok <==> 0 <= first <= last < |m.chunks| && aligned == Span(body, first, last)
  {
    hide At, ChunkCount, Chunk, Span;
    if first < 0 || last < first || last >= |m.chunks| {
      return false;
    }
    var local := 0;
    AtRises(first, last);
    ChunkStartsInside(|body|, last);
    for chunk := first to last + 1
      invariant 0 <= local <= |aligned|
      invariant chunk <= last ==> local == At(chunk) - At(first)
      invariant chunk == last + 1 ==> local == ChunkEnd(|body|, last) - At(first)
      invariant At(first) + local <= |body| && aligned[..local] == body[At(first)..At(first) + local]
    {
      AtIs(chunk);
      AtRises(chunk, chunk);
      ChunkStartsInside(|body|, chunk);
      var size := m.chunkBytes;
      if m.header.resultBytes - chunk * m.chunkBytes < size {
        size := m.header.resultBytes - chunk * m.chunkBytes;
      }
      assert size == ChunkEnd(|body|, chunk) - At(chunk);
      ChunkInSpan(body, first, last, chunk);
      if size < 0 || local + size > |aligned| || Sha256(aligned[local..local + size]) != m.chunks[chunk] {
        return false;
      }
      OneMoreChunk(body, first, chunk, aligned, local, size);
      local := local + size;
      NotLastIsWhole(|body|, chunk, last);
    }
    ok := local == |aligned|;
    if ok {
      SpanIsWhole(body, first, last, aligned);
    }
    SpanLength(body, first, last);
  }

  lemma AtIs(k: nat)
    ensures At(k) == k * CHUNK
  {
  }

  lemma NotLastIsWhole(n: nat, k: nat, last: nat)
    requires k <= last < ChunkCount(n)
    ensures k < last ==> ChunkEnd(n, k) == At(k + 1)
  {
    hide At, ChunkCount;
    ChunkStartsInside(n, last);
    if k < last { AtRises(k + 1, last); }
  }

  datatype Range = Bytes(header: Header, body: seq<byte>) | Expired | Corrupt | InvalidOffset

  /** What GETRANGE gives: nothing for a missing key, and never more than there is. */
  function GetRange(stored: Option<seq<byte>>, start: nat, end: nat): seq<byte> {
    if stored.None? || start >= |stored.value| then []
    else if end + 1 <= start then []
    else if end + 1 >= |stored.value| then stored.value[start..] else stored.value[start..end + 1]
  }

  /** The store under one key prefix. Keys may expire at any time and a body may be cut
      or overwritten; metadata, as long as they are there, are those of the envelope
      that was put last, which `put` remembers for the proofs. */
  class ToolResultStore {
    const refs: string -> bool
    const maximumValueBytes: int
    var metadata: map<string, Metadata>
    var bodies: map<string, seq<byte>>
    ghost var put: map<string, Envelope>

    constructor (refs: string -> bool, maximumValueBytes: int)
      ensures Valid() && metadata == map[] && bodies == map[]
      ensures this.refs == refs && this.maximumValueBytes == maximumValueBytes
    {
      this.refs, this.maximumValueBytes := refs, maximumValueBytes;
      metadata, bodies, put := map[], map[], map[];
    }

    ghost predicate Valid()
      reads this
    {
      forall ref | ref in metadata ::
        ref in put && metadata[ref] == MetadataOf(put[ref]) && EnvelopeIsValid(refs, put[ref]) &&
        put[ref].header.resultRef == ref
    }

    /** Stores both keys of a valid envelope that is not too long and is to live, and
        nothing otherwise. */
    method Put(e: Envelope, ttl: int) returns (ok: bool)
      requires Valid()
      modifies this
      ensures Valid()
      ensures ok <==> ttl > 0 && |e.body| <= maximumValueBytes && EnvelopeIsValid(refs, e)
      ensures ok ==> metadata == old(metadata)[e.header.resultRef := MetadataOf(e)]
      ensures ok ==> bodies == old(bodies)[e.header.resultRef := e.body] && put == old(put)[e.header.resultRef := e]
      ensures !ok ==> metadata == old(metadata) && bodies == old(bodies) && put == old(put)
    {
      if ttl <= 0 || |e.body| > maximumValueBytes || !EnvelopeIsValid(refs, e) {
        return false;
      }
      var m := MetadataFromEnvelope(e);
      metadata := metadata[e.header.resultRef := m];
      bodies := bodies[e.header.resultRef := e.body];
      put := put[e.header.resultRef := e];
      return true;
    }

    /** Anything may happen to what is stored under a key, short of forged metadata. */
    method Decay(ref: string, forget: bool, body: Option<seq<byte>>)
      requires Valid()
      modifies this
      ensures Valid() && put == old(put) && Body(ref) == body
      ensures metadata == if forget then old(metadata) - {ref} else old(metadata)
      ensures forall other | other != ref :: Body(other) == old(Body(other))
    {
      if forget {
        metadata := metadata - {ref};
      }
      bodies := if body.Some? then bodies[ref := body.value] else bodies - {ref};
    }

    function Body(resultRef: string): Option<seq<byte>>
      reads this
    {
      if resultRef in bodies then Some(bodies[resultRef]) else None
    }

    /** What was put under this reference is still there, unchanged. */
    ghost predicate Untouched(resultRef: string)
      reads this
    {
      resultRef in metadata && resultRef in put && Body(resultRef) == Some(put[resultRef].body)
    }

    /** Bytes that come back are those of the envelope that was put, whatever the store
        holds by now, and an untouched body is never refused. `stillThere` answers
        the question asked after a short read. */
    method ReadRange(resultRef: string, offset: int, maximumBytes: int, stillThere: bool) returns (r: Range)
      requires Valid()
      ensures r.Bytes? ==> resultRef in metadata && r.header == put[resultRef].header && maximumBytes >= 1
      ensures r.Bytes? ==>
        var body := put[resultRef].body;
        0 <= offset <= |body| && r.body == body[offset..Min(offset + maximumBytes, |body|)]
      ensures Untouched(resultRef) && stillThere && 0 <= offset <= |put[resultRef].body| && maximumBytes >= 1 ==>
        r.Bytes?
      ensures r.Expired? ==> !refs(resultRef) || resultRef !in metadata || !stillThere
      ensures resultRef !in metadata && !r.InvalidOffset? ==> r.Expired?
      ensures resultRef in metadata && Body(resultRef).None? && !stillThere && !r.InvalidOffset? ==> r.Expired?
      ensures r.Corrupt? ==> resultRef in metadata && Body(resultRef) != Some(put[resultRef].body)
      ensures r.InvalidOffset? <==>
        refs(resultRef) && (offset < 0 || maximumBytes < 1 || (resultRef in metadata && offset > |put[resultRef].body|))
    {
      hide ChunkHashes;
      if !refs(resultRef) {
        return Expired;
      }
      if offset < 0 || maximumBytes < 1 {
        return InvalidOffset;
      }
      if resultRef !in metadata {
        return Expired;
      }
      var m := metadata[resultRef];
      ghost var body := put[resultRef].body;
      StoredMetadataValidates(refs, put[resultRef]);
      if !Validated(refs, m) || m.header.resultRef != resultRef {
        assert false;
        return Corrupt;
      }
      var resultBytes := m.header.resultBytes;
      if offset > resultBytes {
        return InvalidOffset;
      }
      if offset == resultBytes {
        return if stillThere then Bytes(m.header, []) else Expired;
      }
      var end := offset + maximumBytes;
      if end > resultBytes {
        end := resultBytes;
      }
      r := ReadChunks(m, resultRef, offset, end, stillThere, body);
    }

    /** The part of a read that goes to the body: whole chunks, checked, then cut. */
    method ReadChunks(m: Metadata, resultRef: string, offset: nat, end: nat, stillThere: bool, ghost body: seq<byte>)
      returns (r: Range)
      requires m.chunkBytes == CHUNK && m.header.resultBytes == |body| && m.chunks == ChunkHashes(body)
      requires offset < end <= |body|
      ensures r.Bytes? ==> r.header == m.header && r.body == body[offset..end]
      ensures Body(resultRef) == Some(body) && stillThere ==> r.Bytes?
      ensures !r.InvalidOffset? && (r.Expired? ==> !stillThere) && (r.Corrupt? ==> Body(resultRef) != Some(body))
      ensures Body(resultRef).None? && !stillThere ==> r.Expired?
    {
      hide At, ChunkCount, ChunkEnd, Span, GetRange;
      var resultBytes := m.header.resultBytes;
      var firstChunk := offset / m.chunkBytes;
      var lastChunk := (end - 1) / m.chunkBytes;
      var alignedStart := firstChunk * m.chunkBytes;
      var alignedEnd := (lastChunk + 1) * m.chunkBytes - 1;
      if alignedEnd >= resultBytes {
        alignedEnd := resultBytes - 1;
      }
      AlignmentCovers(|body|, offset, end);
      AtIs(firstChunk);
      AtIs(lastChunk + 1);
      SpanIs(body, firstChunk, lastChunk);
      var aligned := GetRange(Body(resultRef), alignedStart, alignedEnd);
      NothingThere(alignedStart, alignedEnd);
      if Body(resultRef) == Some(body) {
        WholeRange(body, alignedStart, alignedEnd);
      }
      if |aligned| != alignedEnd - alignedStart + 1 {
        return if stillThere then Corrupt else Expired;
      }
      var verified := VerifyChunks(m, firstChunk, lastChunk, aligned, body);
      if !verified {
        return Corrupt;
      }
      var startInAligned := offset - alignedStart;
      var endInAligned := startInAligned + end - offset;
      SliceOfSlice(body, alignedStart, alignedEnd + 1, startInAligned, endInAligned);
      return Bytes(m.header, aligned[startInAligned..endInAligned]);
    }
  }

  lemma SpanIs(body: seq<byte>, first: nat, last: nat)
    requires first <= last < ChunkCount(|body|)
    ensures At(first) <= ChunkEnd(|body|, last) <= |body|
    ensures Span(body, first, last) == body[At(first)..ChunkEnd(|body|, last)]
  {
    hide At, ChunkCount;
    AtRises(first, last);
    ChunkStartsInside(|body|, last);
  }

  lemma NothingThere(start: nat, end: nat)
    ensures GetRange(None, start, end) == []
  {
  }

  lemma WholeRange(body: seq<byte>, start: nat, end: nat)
    requires start <= end < |body|
    ensures GetRange(Some(body), start, end) == body[start..end + 1]
  {
  }

  /** The chunks of a range cover it, and the aligned end is where the last of them
      ends. */
  lemma AlignmentCovers(n: nat, offset: nat, end: nat)
    requires offset < end <= n
    ensures var first, last := offset / CHUNK, (end - 1) / CHUNK;
      first <= last < ChunkCount(n) && At(first) <= offset && end <= ChunkEnd(n, last) &&
      ChunkEnd(n, last) == (if At(last + 1) - 1 >= n then n - 1 else At(last + 1) - 1) + 1
  {
  }
}
