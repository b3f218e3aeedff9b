/** The checksum of an artifact file: the file is read in chunks of at most
    4096 bytes, each chunk is fed in order to an incremental digest, and the
    digest's hex rendering is the checksum. The digest algorithm (SHA-512 in
    the system) is a parameter: nothing here depends on what it computes. */
module Checksums {

  newtype byte = x: int | 0 <= x < 256

  /** The size `f.read` is asked for on each call. */
  const ChunkSize: nat := 4096

  /** An incremental digest: its initial state, the update with one chunk,
      and the hex rendering of a state. */
  datatype Hasher<!S> = Hasher(
    init: S,
    update: (S, seq<byte>) -> S,
    hexdigest: S -> string)

  function Concat(chunks: seq<seq<byte>>): seq<byte>
  {
    if chunks == [] then [] else chunks[0] + Concat(chunks[1..])
  }

  /** What one `f.read(ChunkSize)` returns from a regular file whose contents
      are `contents` when `pos` bytes have been read already: the next bytes,
      at most ChunkSize of them, and the empty sequence at end of file. */
  function Read(contents: seq<byte>, pos: nat): (chunk: seq<byte>)
    requires pos <= |contents|
    ensures chunk == [] <==> pos == |contents|
    ensures |chunk| <= ChunkSize
    ensures pos + |chunk| <= |contents| && contents[pos..pos + |chunk|] == chunk
    ensures pos + |chunk| < |contents| ==> |chunk| == ChunkSize
  {
    contents[pos..if pos + ChunkSize <= |contents| then pos + ChunkSize else |contents|]
  }

  /** The chunks the read loop yields before `read` returns the empty
      sequence: all of them non-empty, none longer than ChunkSize, every one
      but the last exactly ChunkSize long, and together the whole file. */
  function Chunks(contents: seq<byte>): (r: seq<seq<byte>>)
    ensures Concat(r) == contents
    ensures forall i :: 0 <= i < |r| ==> 0 < |r[i]| <= ChunkSize
    ensures forall i :: 0 <= i < |r| - 1 ==> |r[i]| == ChunkSize
    decreases |contents|
  {
    if contents == [] then []
    else
      var chunk := Read(contents, 0);
      var rest := Chunks(contents[|chunk|..]);
      assert chunk + contents[|chunk|..] == contents;
      [chunk] + rest
  }

  /** The digest state after feeding `chunks`, in order, to state `s`. */
  function Fold<S>(h: Hasher<S>, s: S, chunks: seq<seq<byte>>): S
  {
    if chunks == [] then s else Fold(h, h.update(s, chunks[0]), chunks[1..])
  }

  /** The checksum of a file: the hex digest after feeding it chunk by chunk. */
  function FileDigest<S>(h: Hasher<S>, contents: seq<byte>): string
  {
    h.hexdigest(Fold(h, h.init, Chunks(contents)))
  }

  /** The read loop of the checksum hook: read a chunk, and while it is not
      empty feed it to the digest and read the next one. */
  method DigestFile<S>(h: Hasher<S>, contents: seq<byte>) returns (hex: string)
    ensures hex == FileDigest(h, contents)
  {
    var state := h.init;
    var pos := 0;
    var chunk := Read(contents, pos);
    while chunk != []
      invariant pos <= |contents|
      invariant chunk == Read(contents, pos)
      invariant Fold(h, state, Chunks(contents[pos..])) == Fold(h, h.init, Chunks(contents))
      decreases |contents| - pos
    {
      assert Read(contents[pos..], 0) == chunk;
      assert contents[pos..][|chunk|..] == contents[pos + |chunk|..];
      state := h.update(state, chunk);
      pos := pos + |chunk|;
      chunk := Read(contents, pos);
    }
    assert contents[pos..] == [];
    hex := h.hexdigest(state);
  }

  /** A digest whose state depends only on the bytes fed so far, however they
      were split into updates; this is how an incremental hash object such as
      SHA-512's behaves. */
  ghost predicate Streaming<S(!new)>(h: Hasher<S>)
  {
    && (forall s :: h.update(s, []) == s)
    && (forall s, a, b :: h.update(h.update(s, a), b) == h.update(s, a + b))
  }

  lemma {:induction false} FoldIsOneUpdate<S(!new)>(h: Hasher<S>, s: S, chunks: seq<seq<byte>>)
    requires Streaming(h)
    ensures Fold(h, s, chunks) == h.update(s, Concat(chunks))
    decreases |chunks|
  {
    if chunks != [] {
      FoldIsOneUpdate(h, h.update(s, chunks[0]), chunks[1..]);
    }
  }

  /** For a streaming digest the chunked checksum is the digest of the exact
      file bytes fed at once: the chunking leaves no trace in the checksum. */
  lemma DigestIsOfWholeFile<S(!new)>(h: Hasher<S>, contents: seq<byte>)
    requires Streaming(h)
    ensures FileDigest(h, contents) == h.hexdigest(h.update(h.init, contents))
  {
    FoldIsOneUpdate(h, h.init, Chunks(contents));
  }
}
