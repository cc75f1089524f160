/**
 * Splitting a long recording into upload-sized pieces.
 *
 * The recording is decoded into an audio segment whose length is counted in
 * milliseconds and which is sliced by millisecond offsets; the model therefore
 * represents audio as a sequence with one element per millisecond.
 */
module Chunker {

  /** One millisecond of decoded sound. */
  type Frame = int

  /** A decoded recording, one element per millisecond. */
  type Audio = seq<Frame>

  /** Duration of one chunk: ten minutes, in milliseconds. */
  const ChunkLengthMs: nat := 10 * 60 * 1000

  function Min(a: int, b: int): int { if a <= b then a else b }

  /**
   * Python's slice `audio[lo:hi]` for non-negative bounds: both bounds are
   * clamped to the length, and an inverted range gives the empty slice.
   */
  function PySlice(audio: Audio, lo: nat, hi: nat): (s: Audio)
    ensures lo <= hi <= |audio| ==> s == audio[lo..hi]
    ensures lo <= |audio| <= hi ==> s == audio[lo..]
    ensures |audio| <= lo ==> s == []
    ensures hi <= lo ==> s == []
  {
    var l := Min(lo, |audio|);
    var h := Min(hi, |audio|);
    if l <= h then audio[l..h] else []
  }

  /** The number of chunk starts `0, C, 2C, ...` below `n`: the length of `range(0, n, C)`. */
  function ChunkCount(n: nat): nat
  {
    (n + ChunkLengthMs - 1) / ChunkLengthMs
  }

  /** `ChunkCount(n)` is the least `k` with `k * C >= n`, that is, `ceil(n / C)`. */
  lemma ChunkCountIsCeiling(n: nat)
    ensures ChunkCount(n) * ChunkLengthMs >= n
    ensures ChunkCount(n) > 0 ==> (ChunkCount(n) - 1) * ChunkLengthMs < n
    ensures n == 0 <==> ChunkCount(n) == 0
  {
  }

  /** Where chunk `k` starts, in milliseconds. */
  function ChunkStart(k: nat): nat
  {
    k * ChunkLengthMs
  }

  /**
   * The chunks the source builds: one slice `audio[i:i + C]` for every `i` in
   * `range(0, len(audio), C)`, in increasing order of `i`.
   */
  function Chunks(audio: Audio): (chunks: seq<Audio>)
    ensures forall k :: 0 <= k < |chunks| ==> |chunks[k]| <= ChunkLengthMs
  {
    seq(ChunkCount(|audio|), k requires 0 <= k => PySlice(audio, ChunkStart(k), ChunkStart(k) + ChunkLengthMs))
  }

  /** Concatenation of a sequence of pieces, in order. */
  function Flatten(pieces: seq<Audio>): Audio
  {
    if pieces == [] then [] else Flatten(pieces[..|pieces| - 1]) + pieces[|pieces| - 1]
  }

  /**
   * The source's chunking loop: walk `i` over `0, C, 2C, ...` while it is
   * below the audio's length and append the slice starting there.
   */
  method SplitAudio(audio: Audio) returns (chunks: seq<Audio>)
    ensures chunks == Chunks(audio)
  {
    chunks := [];
    var i := 0;
    while i < |audio|
      invariant i == ChunkStart(|chunks|)
      invariant |chunks| <= ChunkCount(|audio|)
      invariant forall k :: 0 <= k < |chunks| ==>
        chunks[k] == PySlice(audio, ChunkStart(k), ChunkStart(k) + ChunkLengthMs)
    {
      chunks := chunks + [PySlice(audio, i, i + ChunkLengthMs)];
      i := i + ChunkLengthMs;
    }
  }

  /** Flattening one more piece appends it. */
  lemma FlattenSnoc(pieces: seq<Audio>, j: nat)
    requires 0 < j <= |pieces|
    ensures Flatten(pieces[..j]) == Flatten(pieces[..j - 1]) + pieces[j - 1]
  {
    assert pieces[..j][..j - 1] == pieces[..j - 1];
  }

  /** The first `j` chunks, concatenated, are the audio's first `j * C` milliseconds. */
  lemma {:induction false} FlattenChunksPrefix(audio: Audio, j: nat)
    requires j <= ChunkCount(|audio|)
    ensures Flatten(Chunks(audio)[..j]) == audio[..Min(ChunkStart(j), |audio|)]
  {
    if j > 0 {
      var lo, hi := ChunkStart(j - 1), Min(ChunkStart(j), |audio|);
      FlattenChunksPrefix(audio, j - 1);
      FlattenSnoc(Chunks(audio), j);
      ChunkWindows(audio, j - 1);
      assert audio[..lo] + audio[lo..hi] == audio[..hi];
    }
  }

  /** Concatenating the chunks in order gives back the whole recording. */
  lemma ChunksConcatenate(audio: Audio)
    ensures Flatten(Chunks(audio)) == audio
  {
    var chunks := Chunks(audio);
    FlattenChunksPrefix(audio, |chunks|);
    assert chunks[..|chunks|] == chunks;
  }

  /**
   * Chunk `k` is the window `[k * C, (k + 1) * C)` of the recording, cut at
   * its end: every chunk but the last is exactly `C` long, and the last is
   * between 1 and `C` long.
   */
  lemma ChunkWindows(audio: Audio, k: nat)
    requires k < |Chunks(audio)|
    ensures ChunkStart(k) < |audio|
    ensures Chunks(audio)[k] == audio[ChunkStart(k) .. Min(ChunkStart(k) + ChunkLengthMs, |audio|)]
    ensures k + 1 < |Chunks(audio)| ==> |Chunks(audio)[k]| == ChunkLengthMs
    ensures k + 1 == |Chunks(audio)| ==> 1 <= |Chunks(audio)[k]| <= ChunkLengthMs
  {
  }

  /** Consecutive chunks meet without a gap or an overlap. */
  lemma ChunksAdjacent(audio: Audio, k: nat)
    requires k + 1 < |Chunks(audio)|
    ensures Chunks(audio)[k] + Chunks(audio)[k + 1] ==
      audio[ChunkStart(k) .. Min(ChunkStart(k + 2), |audio|)]
  {
    var lo, mid, hi := ChunkStart(k), ChunkStart(k + 1), Min(ChunkStart(k + 2), |audio|);
    assert Chunks(audio)[k] == audio[lo..mid];
    assert Chunks(audio)[k + 1] == audio[mid..hi];
    assert audio[lo..mid] + audio[mid..hi] == audio[lo..hi];
  }
}
