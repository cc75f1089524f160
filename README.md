# Voice Transcriber — a Dafny model of its transcription core

Voice Transcriber is a desktop recorder. It saves microphone audio as a WAV
file and sends the file to a remote speech-to-text service. A file above
24 MiB is cut into ten-minute chunks, the chunks are uploaded one after
another, and their transcripts are joined with a blank line. The API key
comes from the environment or from a small JSON config file.

This project models the decision and data logic of that program and proves
its properties:

- `Chunker.dfy`: cutting the decoded recording into ten-minute slices, as
  Python's `range`/slice loop does it. The recording is a sequence with one
  element per millisecond.
- `Transcription.dfy`: the transcription request. It covers the soft skip
  when no key or client library is present, the inclusive 24 MiB threshold,
  the single upload, and the strictly sequential chunk loop. In that loop
  each temporary chunk file is removed in a `finally` step, and the chunk
  transcripts are joined with `"\n\n"`. The remote service is an oracle
  (`service: Request -> Upload`) that answers each upload with text or
  failure. An event log returned by the methods records client creation, the
  file-size query, the uploads, and the export and removal of each chunk
  file. The import of the audio library and the decoding of the recording
  are not logged.
- `Settings.dfy`: loading the key (environment first, then the config
  object) and saving it (read, merge, write back). The config file's state is
  the value `ConfigFile`: absent, present but not JSON, JSON but not an
  object, or an object. `VoiceTranscriber` is a class holding the key and
  the config file.
  Its `SaveApiKey` changes both in place.
- `Timer.dfy`: the timer text `HH:MM:SS` for whole elapsed seconds, with a
  parser that reads it back.

A failed chunk is not skipped. The upload error escapes the chunk loop's
`try`/`finally` (`recorder.py:380-390`) and is caught in `transcribe_audio`
(`recorder.py:347-349`), so the whole request returns no transcript. The
first failed chunk ends the run, its file is still removed, and no later
chunk is uploaded.

## Model

| member | source | states |
|---|---|---|
| `Chunker.SplitAudio` | recorder.py:360-365 | The loop over `range(0, len(audio), C)` builds exactly `Chunks(audio)`: one clamped slice `audio[i:i+C]` per start `i`, in increasing order of `i`. |
| `Chunker.PySlice` | recorder.py:365 | A slice whose end lies past the length runs to the end of the recording, as Python's slicing does. A start past the end, or an end at or before the start, gives the empty slice. |
| `Chunker.Chunks` | recorder.py:362-365 | The slices `audio[i:i+C]` for `i` in `range(0, len(audio), C)`, in order; no chunk is longer than `C`. |
| `Chunker.ChunkCountIsCeiling` | recorder.py:364 | The number of chunks `n` is `ceil(L/C)`: `n*C >= L`, `(n-1)*C < L` when `n > 0`, and `n == 0` exactly for an empty recording. |
| `Chunker.ChunksConcatenate` | recorder.py:361-365 | Concatenating the chunks in order gives back the whole recording. |
| `Chunker.FlattenChunksPrefix` | recorder.py:364-365 | The first `j` chunks concatenated are the recording's first `j*C` milliseconds. |
| `Chunker.ChunkWindows` | recorder.py:364-365 | Chunk `k` is the window `[k*C, min((k+1)*C, L))`. It starts inside the recording. Every chunk but the last is exactly `C` long, and the last is 1 to `C` long. |
| `Chunker.ChunksAdjacent` | recorder.py:364-365 | Two consecutive chunks together are the contiguous window they cover: no gap and no overlap. |
| `Transcription.ChooseRoute` | recorder.py:317-332 | Only a truthy key with the library present leads past the skip. A single upload is chosen only for at most 24 MiB, and chunking only above it. |
| `Transcription.SkipIgnoresSize` | recorder.py:317-323 | The request is skipped exactly when the key is falsy (`None` or `""`) or the client library is missing, whatever the file size. |
| `Transcription.RouteThreshold` | recorder.py:328-345 | With a key and the library, a single upload is chosen exactly when the size is at most 24 MiB, inclusive, and chunking otherwise. A size that gets a single upload keeps it for every smaller size. |
| `Transcription.TranscribeAudio` | recorder.py:315-349 | A skip returns no transcript and contacts nothing (empty log). A single upload logs client creation, the size query and one upload, and returns the service's text verbatim, or nothing on failure. The chunked path logs client creation and the size query, then behaves as the chunk loop. |
| `Transcription.TranscribeChunked` | recorder.py:351-394 | If every chunk is transcribed, the result is the transcripts of `Chunks(audio)` joined with `"\n\n"` in chunk order, and every chunk is exported, uploaded and removed. Otherwise there is no transcript, and the log holds exactly the chunks up to and including the first failing one. |
| `Transcription.FirstFailureFrom` | recorder.py:370-390 | Gives the first chunk at or after `from` whose upload fails, or the chunk count: every chunk before it succeeds, and the chunk it names fails. |
| `Transcription.ChunkedRunSucceedsIff` | recorder.py:380-394 | The chunk loop yields a transcript if and only if every chunk upload succeeds. |
| `Transcription.FailureStopsUploads` | recorder.py:380-390 | When a chunk fails, the request gives no transcript. Chunk `k` is uploaded exactly when it is at or before the first failing chunk. |
| `Transcription.FragmentFromChunk` | recorder.py:387 | When all chunks succeed, fragment `i` of the joined transcript, at its offset, is the service's text for chunk `i`. |
| `Transcription.ChunkFilesRemoved` | recorder.py:376-390 | On every outcome, a chunk file that was exported was also uploaded and removed, at log positions `3k`, `3k+1` and `3k+2`. Each of those entries occurs nowhere else. |
| `Transcription.AttemptsOnce` | recorder.py:376-390 | In the log of `n` handled chunks, chunk `k` appears if and only if `k < n`, as export, upload and removal in that order. Each entry occurs once. |
| `Transcription.AttemptsInOrder` | recorder.py:370 | Chunks are handled in increasing index order. Chunk indices never decrease along the log, and uploads are strictly increasing. |
| `Transcription.Join` | recorder.py:394 | `sep.join(parts)`: a non-empty join starts with the first part. |
| `Transcription.JoinLength` | recorder.py:394 | The joined text's length is the parts' total length plus one separator between each two parts. |
| `Transcription.JoinPart` | recorder.py:394 | Part `i` of a join sits at its offset in the joined text. |
| `Transcription.JoinSeparator` | recorder.py:394 | The separator stands between part `i` and part `i+1` of a join. |
| `Transcription.ThreeChunks` | recorder.py:367-394 | Three chunks answered "a", "b" and "c" give `"a\n\nb\n\nc"` and a nine-entry log. |
| `Transcription.EmptyRecording` | recorder.py:364-394 | An empty recording on the chunked path uploads nothing and gives the empty transcript. |
| `Settings.LoadApiKey` | recorder.py:64-79 | A loaded key is either the environment value or the config object's `openai_api_key` entry. |
| `Settings.EnvironmentWins` | recorder.py:66-69 | A non-empty environment value is the key, whatever the config file holds. |
| `Settings.ConfigFallback` | recorder.py:71-79 | Without a usable environment value, there is a key if and only if the config file is a JSON object with an `openai_api_key` entry, and the key is that entry. A missing config, a config that is not JSON or a non-object config gives none. |
| `Settings.MergeConfig` | recorder.py:83-90 | The saved record maps `openai_api_key` to the new key and keeps every other entry of a readable prior object. An absent config, a config that is not JSON or a non-object config counts as empty, so the record then holds only the key. This is the corrected save, see "## Findings". |
| `Settings.MergeConfigAsWritten` | recorder.py:83-90 | As written, saving agrees with `MergeConfig` except on a config that is JSON but not an object, where the item assignment raises and nothing is written. |
| `Settings.NonObjectConfigBlocksSave` | recorder.py:86-90 | For a non-object config, the as-written save fails, while the intended save writes a record holding only the key. |
| `Settings.SaveThenLoad` | recorder.py:64-93 | After a key is saved, loading returns it, unless a non-empty environment value takes precedence. |
| `Settings.LastSaveWins` | recorder.py:81-93 | Saving two keys in turn leaves the same record as saving only the second. |
| `Settings.VoiceTranscriber.constructor` | recorder.py:58-59 | At start-up the current key is the loaded key. |
| `Settings.VoiceTranscriber.SaveApiKey` | recorder.py:81-93 | The config file becomes the merged record of its old contents and the key, and the current key becomes the saved key. This is the corrected save, see "## Findings". |
| `Timer.SplitElapsed` | recorder.py:251-254 | `hours*3600 + minutes*60 + seconds` equals the elapsed seconds, with minutes and seconds below 60. |
| `Timer.SplitUnique` | recorder.py:252-254 | That split is the only one with minutes and seconds below 60. |
| `Timer.Pad2` | recorder.py:255 | A `:02d` field is all digits, at least two long, and exactly two long below 100. It starts with `0` exactly for a number below 10, so a field of 100 or more is the plain numeral. |
| `Timer.TimerText` | recorder.py:255 | The timer text is at least eight characters: hours, then `:` and two minute digits, then `:` and two second digits. |
| `Timer.TimerFields` | recorder.py:252-255 | The hour, minute and second fields of the timer text read back as the hours, minutes and seconds of the split of the elapsed seconds. |
| `Timer.Pad2Field` | recorder.py:255 | A `:02d` field has at least two digits, exactly two below 100, and reads back as its number. |
| `Timer.DecimalRoundTrip` | recorder.py:255 | A decimal numeral reads back as the number it was made from. |
| `Timer.TimerRoundTrip` | recorder.py:250-255 | Reading the timer text back, with minute and second fields below 60, gives the elapsed seconds. The text is eight characters long below a hundred hours. |

## Left out

- Widgets, `after(...)` display updates, the progress bar and its float fractions, the status texts and the settings dialog (`recorder.py:95-192`, `206-233`, `269-313`, `396-406`) are presentation only.
- The recording, timer and save threads, the shared `is_recording` flag, the sound-device stream and the 0.1 s polling loops (`recorder.py:200-256`) are concurrency and device I/O. Of the timer, only the text of one tick is modelled.
- `save_and_transcribe` (`recorder.py:258-313`) is left out: numpy concatenation, the WAV write, timestamped file names and the transcript file header depend on the clock and the file system.
- The speech-to-text service is an oracle keyed by what is uploaded: the whole recording, or chunk `i` with its audio. A service whose answer depends on anything else (time, earlier calls) is not modelled.
- Failures of client construction, of `os.path.getsize`, of the audio library import (`from pydub import AudioSegment`, `recorder.py:353`, when that library is not installed), of the WAV decode and of a chunk export are not modelled. The source turns each of them into "no transcript" too. Without the audio library, every request above 24 MiB therefore gives no transcript. The model has no input saying whether that library is present, so its chunked route always runs the chunk loop. A chunk whose export raises is never removed, because the export runs before the `try` (`recorder.py:378-380`). The model does not capture a partly written chunk file left behind this way.
- `Transcription.TranscribeAudio` takes the file size and the decoded audio as separate inputs. How a WAV file's byte size relates to its duration is not modelled.
- Chunk files are identified by their index. Their path `temp_chunk_<i>.wav` and the `missing_ok` flag of the removal are not modelled; removal never fails.
- JSON parsing and file existence are the four cases of `ConfigFile`.
- A config path that exists but cannot be opened (a directory, no permission) is not modelled. Loading then gives no key, as for a file that is not JSON. Saving instead raises at `open(CONFIG_FILE, "w")` (`recorder.py:91-92`), so nothing is written and the current key is unchanged. The same holds for any failure to write the file. Config values are strings only, so a non-string `openai_api_key` value (a number, `null`) is not modelled.
- Elapsed time is a whole number of seconds. For non-negative `x`, the source's float expressions give the same fields as the whole seconds `floor(x)`.
- Diagnostic `print` calls are left out.

## Findings

| source | as written | input that shows it | evidently intended | confidence | as-written member | corrected member |
|---|---|---|---|---|---|---|
| recorder.py:83-90 | `save_api_key` keeps whatever `json.load` returns and then assigns `config["openai_api_key"] = key`. A config that is valid JSON but not an object gets through the bare `except`, the assignment raises `TypeError`, and nothing is written. | `config.json` containing `[]` (or `"x"`, `1`, `null`) | A config that cannot be used as a record counts as empty, as the `except: pass` does for unparsable files, so the saved record holds only the key. | medium, not executed | `Settings.MergeConfigAsWritten` (shown by `Settings.NonObjectConfigBlocksSave`) | `Settings.MergeConfig`, used by `Settings.VoiceTranscriber.SaveApiKey` |
