/**
 * The transcription pipeline: the decision between skipping, a single upload
 * and a chunked upload, and the strictly sequential per-chunk loop with its
 * temporary-file cleanup and its ordered join.
 *
 * The remote speech-to-text service is an oracle: given what is uploaded it
 * answers with the recognised text or fails. Client creation, the file-size
 * query, the uploads and the export and removal of each chunk file are
 * recorded in an event log that the methods return, so that the cleanup and
 * ordering guarantees can be stated about it. Decoding the recording into
 * audio is not logged.
 */
module Transcription {
  import opened Wrappers
  import opened Chunker

  /** Uploads above this many bytes are split: 24 MiB, inclusive. */
  const MaxUploadBytes: nat := 24 * 1024 * 1024

  /** The text placed between the transcripts of consecutive chunks. */
  const Separator: string := "\n\n"

  /** What is sent to the service: the whole recording, or chunk `index`. */
  datatype Request = Whole(audio: Audio) | Chunk(index: nat, audio: Audio)

  /** The service's answer to one upload: the text, or a raised error. */
  datatype Upload = Text(text: string) | Failed

  /** Contacts with the outside world, in the order they happen. */
  datatype Event =
    | ClientCreated          // the API client is constructed
    | SizeQueried            // the recording's file size is read
    | SentWhole              // the whole recording is uploaded
    | Exported(chunk: nat)   // chunk `chunk` is written to its temporary file
    | Sent(chunk: nat)       // that temporary file is uploaded
    | Unlinked(chunk: nat)   // that temporary file is removed

  /** The three ways a transcription request can go. */
  datatype Route = Skip | SingleShot | Chunked

  /** Python truthiness of the configured key: `None` and `""` are false. */
  predicate HasKey(apiKey: Option<string>)
  {
    apiKey.Some? && apiKey.value != ""
  }

  /**
   * The decision at the head of the transcription: no key or no client
   * library means skip; otherwise a file of at most `MaxUploadBytes` bytes
   * goes in one upload and a larger one is chunked.
   */
  function ChooseRoute(apiKey: Option<string>, available: bool, fileSize: nat): (r: Route)
    ensures r != Skip ==> HasKey(apiKey) && available
    ensures r == SingleShot ==> fileSize <= MaxUploadBytes
    ensures r == Chunked ==> fileSize > MaxUploadBytes
  {
    if !HasKey(apiKey) || !available then Skip
    else if fileSize <= MaxUploadBytes then SingleShot
    else Chunked
  }

  /** The skip decision never looks at the file size. */
  lemma SkipIgnoresSize(apiKey: Option<string>, available: bool, size1: nat, size2: nat)
    ensures ChooseRoute(apiKey, available, size1) == Skip <==> ChooseRoute(apiKey, available, size2) == Skip
    ensures ChooseRoute(apiKey, available, size1) == Skip <==> !HasKey(apiKey) || !available
  {
  }

  /**
   * With a key and the library present, the single upload is taken exactly
   * for sizes up to and including the threshold; the choice only ever moves
   * from single to chunked as the size grows.
   */
  lemma RouteThreshold(apiKey: Option<string>, available: bool, size: nat, larger: nat)
    requires HasKey(apiKey) && available
    requires size <= larger
    ensures ChooseRoute(apiKey, available, size) == SingleShot <==> size <= MaxUploadBytes
    ensures ChooseRoute(apiKey, available, size) == Chunked <==> size > MaxUploadBytes
    ensures ChooseRoute(apiKey, available, larger) == SingleShot ==> ChooseRoute(apiKey, available, size) == SingleShot
  {
  }

  /** `parts` joined with `sep` between consecutive elements, as `sep.join(parts)`. */
  function Join(parts: seq<string>, sep: string): (r: string)
    ensures |parts| > 0 ==> |parts[0]| <= |r| && r[..|parts[0]|] == parts[0]
  {
    if |parts| == 0 then ""
    else if |parts| == 1 then parts[0]
    else Join(parts[..|parts| - 1], sep) + sep + parts[|parts| - 1]
  }

  /** Where part `i` starts in `Join(parts, sep)`. */
  function Offset(parts: seq<string>, sep: string, i: nat): nat
    requires i <= |parts|
  {
    if i == 0 then 0 else Offset(parts, sep, i - 1) + |parts[i - 1]| + |sep|
  }

  lemma {:induction false} OffsetPrefix(parts: seq<string>, sep: string, j: nat, i: nat)
    requires i <= j <= |parts|
    ensures Offset(parts[..j], sep, i) == Offset(parts, sep, i)
  {
    if i > 0 {
      OffsetPrefix(parts, sep, j, i - 1);
    }
  }

  /** Joining one more part appends the separator and that part. */
  lemma JoinSnoc(parts: seq<string>, sep: string)
    requires |parts| >= 2
    ensures Join(parts, sep) == Join(parts[..|parts| - 1], sep) + sep + parts[|parts| - 1]
  {
  }

  /** The joined text is as long as its parts plus one separator between each two. */
  lemma {:induction false} JoinLength(parts: seq<string>, sep: string)
    requires |parts| > 0
    ensures |Join(parts, sep)| + |sep| == Offset(parts, sep, |parts|)
  {
    var n := |parts|;
    if n > 1 {
      var init := parts[..n - 1];
      JoinSnoc(parts, sep);
      JoinLength(init, sep);
      OffsetPrefix(parts, sep, n - 1, n - 1);
    }
  }

  /** Part `i` sits in the joined text at `Offset(i)`. */
  lemma {:induction false} JoinPart(parts: seq<string>, sep: string, i: nat)
    requires i < |parts|
    ensures Offset(parts, sep, i) + |parts[i]| <= |Join(parts, sep)|
    ensures Join(parts, sep)[Offset(parts, sep, i) .. Offset(parts, sep, i) + |parts[i]|] == parts[i]
  {
    var n := |parts|;
    if n > 1 {
      var init := parts[..n - 1];
      JoinSnoc(parts, sep);
      JoinLength(init, sep);
      OffsetPrefix(parts, sep, n - 1, n - 1);
      OffsetPrefix(parts, sep, n - 1, i);
      var o := Offset(parts, sep, i);
      if i < n - 1 {
        JoinPart(init, sep, i);
        assert init[i] == parts[i];
        var whole, front := Join(parts, sep), Join(init, sep);
        assert whole[..|front|] == front;
        assert whole[o .. o + |parts[i]|] == front[o .. o + |parts[i]|];
      }
    }
  }

  /** Between part `i` and part `i + 1` of the joined text stands the separator. */
  lemma {:induction false} JoinSeparator(parts: seq<string>, sep: string, i: nat)
    requires i + 1 < |parts|
    ensures Offset(parts, sep, i + 1) <= |Join(parts, sep)|
    ensures Join(parts, sep)[Offset(parts, sep, i) + |parts[i]| .. Offset(parts, sep, i + 1)] == sep
  {
    var n := |parts|;
    var init := parts[..n - 1];
    JoinSnoc(parts, sep);
    JoinLength(init, sep);
    OffsetPrefix(parts, sep, n - 1, n - 1);
    OffsetPrefix(parts, sep, n - 1, i);
    OffsetPrefix(parts, sep, n - 1, i + 1);
    assert init[i] == parts[i];
    var whole, front := Join(parts, sep), Join(init, sep);
    assert whole[..|front|] == front;
    if i + 1 < n - 1 {
      JoinSeparator(init, sep, i);
      var o := Offset(parts, sep, i) + |parts[i]|;
      assert whole[o .. Offset(parts, sep, i + 1)] == front[o .. Offset(parts, sep, i + 1)];
    }
  }

  /** True when chunk `k` is answered with text. */
  predicate Uploads(chunks: seq<Audio>, service: Request -> Upload, k: nat)
    requires k < |chunks|
  {
    service(Chunk(k, chunks[k])).Text?
  }

  /**
   * The index of the first chunk whose upload fails at or after `from`, or
   * `|chunks|` when none fails.
   */
  function FirstFailureFrom(chunks: seq<Audio>, service: Request -> Upload, from: nat): (f: nat)
    requires from <= |chunks|
    ensures from <= f <= |chunks|
    ensures forall k :: from <= k < f ==> Uploads(chunks, service, k)
    ensures f < |chunks| ==> !Uploads(chunks, service, f)
    decreases |chunks| - from
  {
    if from == |chunks| then from
    else if !Uploads(chunks, service, from) then from
    else FirstFailureFrom(chunks, service, from + 1)
  }

  function FirstFailure(chunks: seq<Audio>, service: Request -> Upload): nat
  {
    FirstFailureFrom(chunks, service, 0)
  }

  /** The transcripts of all chunks, in chunk order, when every upload succeeds. */
  function Transcripts(chunks: seq<Audio>, service: Request -> Upload): (ts: seq<string>)
    requires forall k :: 0 <= k < |chunks| ==> Uploads(chunks, service, k)
  {
    seq(|chunks|, k requires 0 <= k < |chunks| && Uploads(chunks, service, k) => service(Chunk(k, chunks[k])).text)
  }

  /** What handling chunks `0 .. n - 1` leaves in the log: export, upload, remove, per chunk. */
  function Attempts(n: nat): seq<Event>
  {
    if n == 0 then [] else Attempts(n - 1) + [Exported(n - 1), Sent(n - 1), Unlinked(n - 1)]
  }

  /** Step `phase` (0 export, 1 upload, 2 removal) of handling chunk `chunk`. */
  function Step(chunk: nat, phase: nat): Event
  {
    if phase == 0 then Exported(chunk) else if phase == 1 then Sent(chunk) else Unlinked(chunk)
  }

  /** Entry `p` of the log of `n` handled chunks is step `p % 3` of chunk `p / 3`. */
  lemma {:induction false} AttemptsAt(n: nat, p: nat)
    ensures |Attempts(n)| == 3 * n
    ensures p < 3 * n ==> Attempts(n)[p] == Step(p / 3, p % 3)
  {
    if n > 0 {
      AttemptsAt(n - 1, p);
    }
  }

  /** True of the log entries that concern one chunk. */
  predicate ChunkEvent(e: Event)
  {
    e.Exported? || e.Sent? || e.Unlinked?
  }

  /**
   * In the log of `n` handled chunks, chunk `k` is exported, uploaded and
   * removed when `k < n`, in that order and next to each other; each of these
   * entries stands at that one place only, and no other chunk appears.
   */
  lemma AttemptsOnce(n: nat, k: nat)
    ensures Exported(k) in Attempts(n) <==> k < n
    ensures Sent(k) in Attempts(n) <==> k < n
    ensures Unlinked(k) in Attempts(n) <==> k < n
    ensures k < n ==> 3 * k + 2 < |Attempts(n)|
    ensures k < n ==> Attempts(n)[3 * k] == Exported(k)
    ensures k < n ==> Attempts(n)[3 * k + 1] == Sent(k)
    ensures k < n ==> Attempts(n)[3 * k + 2] == Unlinked(k)
    ensures forall p :: 0 <= p < |Attempts(n)| && Attempts(n)[p] == Exported(k) ==> p == 3 * k
    ensures forall p :: 0 <= p < |Attempts(n)| && Attempts(n)[p] == Sent(k) ==> p == 3 * k + 1
    ensures forall p :: 0 <= p < |Attempts(n)| && Attempts(n)[p] == Unlinked(k) ==> p == 3 * k + 2
  {
    var log := Attempts(n);
    forall p | 0 <= p < |log|
      ensures log[p] == Step(p / 3, p % 3)
    {
      AttemptsAt(n, p);
    }
    AttemptsAt(n, 3 * k);
    AttemptsAt(n, 3 * k + 1);
    AttemptsAt(n, 3 * k + 2);
  }

  /**
   * The log handles chunks in increasing index order: the chunk named by an
   * entry never decreases along the log, and uploads are strictly increasing.
   */
  lemma AttemptsInOrder(n: nat, p: nat, q: nat)
    requires p < q < |Attempts(n)|
    ensures ChunkEvent(Attempts(n)[p]) && ChunkEvent(Attempts(n)[q])
    ensures Attempts(n)[p].chunk <= Attempts(n)[q].chunk
    ensures Attempts(n)[p].Sent? && Attempts(n)[q].Sent? ==> Attempts(n)[p].chunk < Attempts(n)[q].chunk
  {
    AttemptsAt(n, p);
    AttemptsAt(n, q);
  }


  /**
   * The outcome of the chunked loop: when every chunk is transcribed, the
   * transcripts joined in chunk order and every chunk handled; otherwise no
   * transcript, and the chunks up to and including the failing one handled.
   */
  ghost predicate ChunkedRun(chunks: seq<Audio>, service: Request -> Upload, r: Option<string>, log: seq<Event>)
  {
    var f := FirstFailure(chunks, service);
    if f == |chunks| then
      r == Some(Join(Transcripts(chunks, service), Separator)) && log == Attempts(|chunks|)
    else
      r == None && log == Attempts(f + 1)
  }

  /** The chunked loop yields a transcript exactly when every chunk upload succeeds. */
  lemma ChunkedRunSucceedsIff(chunks: seq<Audio>, service: Request -> Upload, r: Option<string>, log: seq<Event>)
    requires ChunkedRun(chunks, service, r, log)
    ensures r.Some? <==> forall k :: 0 <= k < |chunks| ==> Uploads(chunks, service, k)
  {
  }

  /**
   * When chunk `j` fails there is no transcript, and no chunk after the
   * first failing one is uploaded: chunk `k` is uploaded exactly when it is
   * at or before the first failure.
   */
  lemma FailureStopsUploads(chunks: seq<Audio>, service: Request -> Upload, r: Option<string>, log: seq<Event>,
                            j: nat, k: nat)
    requires ChunkedRun(chunks, service, r, log)
    requires j < |chunks| && !Uploads(chunks, service, j)
    ensures r == None
    ensures FirstFailure(chunks, service) <= j
    ensures Sent(k) in log <==> k <= FirstFailure(chunks, service)
    ensures Sent(k) in log ==> k <= j
  {
    var f := FirstFailure(chunks, service);
    assert f <= j;
    AttemptsOnce(f + 1, k);
  }

  /**
   * When every chunk succeeds, fragment `i` of the transcript is the text of
   * chunk `i`, at its place in the joined text.
   */
  lemma FragmentFromChunk(chunks: seq<Audio>, service: Request -> Upload, r: Option<string>, log: seq<Event>,
                          i: nat)
    requires ChunkedRun(chunks, service, r, log)
    requires forall k :: 0 <= k < |chunks| ==> Uploads(chunks, service, k)
    requires i < |chunks|
    ensures r.Some?
    ensures Uploads(chunks, service, i)
    ensures var ts := Transcripts(chunks, service);
      var o := Offset(ts, Separator, i);
      o + |ts[i]| <= |r.value| && r.value[o .. o + |ts[i]|] == service(Chunk(i, chunks[i])).text
  {
    ChunkedRunSucceedsIff(chunks, service, r, log);
    var ts := Transcripts(chunks, service);
    assert r.value == Join(ts, Separator);
    JoinPart(ts, Separator, i);
  }

  /**
   * Whatever the outcome, a chunk file that was exported was uploaded and
   * then removed, right after the upload, and each of these happened once.
   */
  lemma ChunkFilesRemoved(chunks: seq<Audio>, service: Request -> Upload, r: Option<string>, log: seq<Event>,
                          k: nat)
    requires ChunkedRun(chunks, service, r, log)
    ensures Exported(k) in log <==> Unlinked(k) in log
    ensures Exported(k) in log <==> Sent(k) in log
    ensures Exported(k) in log ==>
      && 3 * k + 2 < |log|
      && log[3 * k] == Exported(k) && log[3 * k + 1] == Sent(k) && log[3 * k + 2] == Unlinked(k)
    ensures forall p :: 0 <= p < |log| && log[p] == Exported(k) ==> p == 3 * k
    ensures forall p :: 0 <= p < |log| && log[p] == Sent(k) ==> p == 3 * k + 1
    ensures forall p :: 0 <= p < |log| && log[p] == Unlinked(k) ==> p == 3 * k + 2
  {
    var f := FirstFailure(chunks, service);
    var n := if f == |chunks| then |chunks| else f + 1;
    assert log == Attempts(n);
    AttemptsOnce(n, k);
  }


  /** Three chunks answered "a", "b" and "c" give the transcript "a\n\nb\n\nc". */
  lemma ThreeChunks(chunks: seq<Audio>, service: Request -> Upload, r: Option<string>, log: seq<Event>)
    requires |chunks| == 3
    requires service(Chunk(0, chunks[0])) == Text("a")
    requires service(Chunk(1, chunks[1])) == Text("b")
    requires service(Chunk(2, chunks[2])) == Text("c")
    requires ChunkedRun(chunks, service, r, log)
    ensures r == Some("a\n\nb\n\nc")
    ensures |log| == 9
  {
    assert FirstFailure(chunks, service) == 3;
    var ts := Transcripts(chunks, service);
    assert ts == ["a", "b", "c"];
    assert ts[..2] == ["a", "b"];
    assert ts[..2][..1] == ["a"];
    assert Join(["a", "b"], Separator) == "a" + Separator + "b";
    assert Join(ts, Separator) == Join(["a", "b"], Separator) + Separator + "c";
    assert r == Some(Join(ts, Separator));
    assert "a" + Separator + "b" + Separator + "c" == "a\n\nb\n\nc";
    AttemptsAt(3, 0);
  }

  /** An empty recording has no chunks: nothing is uploaded and the transcript is empty. */
  lemma EmptyRecording(audio: Audio, service: Request -> Upload, r: Option<string>, log: seq<Event>)
    requires |audio| == 0
    requires ChunkedRun(Chunks(audio), service, r, log)
    ensures log == [] && r == Some("")
  {
    ChunkCountIsCeiling(|audio|);
  }

  /**
   * The chunked transcription: cut the recording into ten-minute chunks,
   * then, one chunk after another, write it to a temporary file, upload it
   * and remove the file whether or not the upload succeeded. A failed upload
   * ends the run with no transcript.
   */
  method TranscribeChunked(audio: Audio, service: Request -> Upload) returns (r: Option<string>, log: seq<Event>)
    ensures ChunkedRun(Chunks(audio), service, r, log)
  {
    var chunks := SplitAudio(audio);
    var transcripts: seq<string> := [];
    log := [];
    var i := 0;
    while i < |chunks|
      invariant 0 <= i <= |chunks|
      invariant |transcripts| == i
      invariant forall k :: 0 <= k < i ==>
        Uploads(chunks, service, k) && transcripts[k] == service(Chunk(k, chunks[k])).text
      invariant log == Attempts(i)
    {
      log := log + [Exported(i)];
      var answer := service(Chunk(i, chunks[i]));
      log := log + [Sent(i)];
      // the temporary file is removed on both outcomes
      log := log + [Unlinked(i)];
      if answer.Failed? {
        assert !Uploads(chunks, service, i);
        var f := FirstFailureFrom(chunks, service, 0);
        assert f == i;
        return None, log;
      }
      transcripts := transcripts + [answer.text];
      i := i + 1;
    }
    assert transcripts == Transcripts(chunks, service);
    r := Some(Join(transcripts, Separator));
  }

  /**
   * The whole transcription request. A missing key or client library
   * returns no transcript without contacting anything. Otherwise the client
   * is created and the file size read; a file of at most `MaxUploadBytes`
   * bytes is uploaded once and its text returned verbatim, a larger one goes
   * through the chunked loop. Any failed upload gives no transcript.
   */
  method TranscribeAudio(apiKey: Option<string>, available: bool, fileSize: nat, audio: Audio,
                         service: Request -> Upload)
    returns (r: Option<string>, log: seq<Event>)
    ensures ChooseRoute(apiKey, available, fileSize) == Skip ==> r == None && log == []
    ensures ChooseRoute(apiKey, available, fileSize) == SingleShot ==>
      log == [ClientCreated, SizeQueried, SentWhole] &&
      r == (match service(Whole(audio)) case Text(t) => Some(t) case Failed => None)
    ensures ChooseRoute(apiKey, available, fileSize) == Chunked ==>
      |log| >= 2 && log[..2] == [ClientCreated, SizeQueried] &&
      ChunkedRun(Chunks(audio), service, r, log[2..])
  {
    if !HasKey(apiKey) {
      return None, [];
    }
    if !available {
      return None, [];
    }
    log := [ClientCreated, SizeQueried];
    if fileSize <= MaxUploadBytes {
      log := log + [SentWhole];
      var answer := service(Whole(audio));
      match answer
      case Text(t) => r := Some(t);
      case Failed => r := None;
    } else {
      var chunkLog;
      r, chunkLog := TranscribeChunked(audio, service);
      log := log + chunkLog;
    }
  }
}
