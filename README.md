# Speaking Stone edge service — session protocol model

A Dafny model of the edge service of the Speaking Stone stack: the Python gateway that
accepts one websocket connection per client, receives binary PCM audio frames and JSON
control messages, assembles utterances, and drives speech recognition, reply generation
and speech synthesis. The model covers:

- the audio-frame wire codec (`<HHHBBH`, a 10-byte little-endian header) and the
  `{type, event, payload}` control envelope (`protocol.dfy`, JSON values in `json.dfy`);
- the utterance buffer `AudioStreamBuffer`, as a value-level specification and as a class
  whose methods update its fields in place (`buffer.dfy`);
- `StageTimer`, with clock readings passed in as integer ticks (`timer.dfy`);
- one `/ws/audio` session: the receive loop, control dispatch, the spoken-turn flush and
  the text turn, as specification functions over a session state and as a `Connection`
  class whose methods are proved equal to them (`session.dfy`), with the properties of
  the session in `session_props.dfy`;
- the recognizer's input checks and segment joining (`stt.dfy`), the reply sanitiser and
  the fallback policy of the reply generator (`llm.dfy`), the `.env` loader (`envfile.dfy`),
  and the WAV replay client's chunker and frame loop (`simulator.dfy`);
- a client-to-server composition: what a fresh session holds and calls after receiving
  everything the replay client sends (`loopback.dfy`).

Python's `str.strip`/`isspace` and exceptions are modelled in `pystr.dfy` and
`wrappers.dfy`. Collaborators the session cannot see (the recognizer, the two-argument
reply generator the session calls, the synthesizer, the clock) are parameters: for each
inbound message, the value each of them returns or the exception it raises. The session
records every collaborator call with its arguments, and every message it sends, in order.

Behaviour of the code that the model keeps and a reader might not expect:

- The text-turn flag is read from the `skip_tts` key.
- Only a `ValueError` from the snapshot or the recognizer is caught in the flush. Any other
  exception there, and any exception of the generator or synthesizer during a spoken turn,
  leaves the receive loop. The model records this as the session status `Aborted`.
- A zero-length frame is accepted. It sets the reference header but buffers no bytes, so a
  following `speech_end` only sends `noop` and keeps that header.
- A decoded control value that is not a JSON object raises `AttributeError` on `.get`. This
  is uncaught, so it also ends the session.

## Model

| member | source | states |
|---|---|---|
| `Protocol.Pack` | edge/speaking_stone_edge/protocol.py:16-40 | `to_bytes` succeeds exactly when every field fits its `H`/`B` format. The output is then exactly 10 bytes: sequence, payload_len, sample_rate as little-endian shorts, channels and bits_per_sample as single bytes, flags as a little-endian short. |
| `Protocol.Unpack` | edge/speaking_stone_edge/protocol.py:42-48 | `from_bytes` fails exactly on input shorter than 10 bytes, with an error carrying 10 and the actual length. Otherwise it yields a header whose fields all fit their formats. |
| `Protocol.PackUnpack` | edge/speaking_stone_edge/protocol.py:31-48 | Decoding an encoded header gives that header back, whatever payload follows it. |
| `Protocol.UnpackPack` | edge/speaking_stone_edge/protocol.py:31-48 | Encoding a decoded header gives back the 10 header bytes it was read from. |
| `Protocol.FlagsDefault` | edge/speaking_stone_edge/protocol.py:29 | A header built without `flags` has flags 0. |
| `Protocol.EncodeControl` | edge/speaking_stone_edge/protocol.py:51-53 | The envelope is an object with exactly the keys type, event and payload. |
| `Protocol.ControlRoundTrip` | edge/speaking_stone_edge/protocol.py:13-58 | Reading the envelope back gives type `MSG_TYPE_CONTROL`, the event and the payload. |
| `JsonValue.Get` | edge/speaking_stone_edge/main.py:210-223 | `.get` on a decoded object gives the field, or null when the field is missing. On any other value it raises AttributeError. |
| `AudioBuffer.AppendFrame` | edge/speaking_stone_edge/main.py:32-47 | A frame is rejected exactly when payload_len differs from the payload length, or when a reference header exists and the sample rate, channel count or bit depth differs from it. A length mismatch is reported first. An accepted frame appends its payload and keeps the first accepted header as the reference. |
| `AudioBuffer.Snapshot` | edge/speaking_stone_edge/main.py:49-53 | `snapshot` fails exactly when no header is held. Otherwise it returns the buffered bytes and the reference header. |
| `AudioBuffer.AppendAllSnapshot` | edge/speaking_stone_edge/main.py:32-53 | Appending length-correct frames of one format to a fresh buffer, then taking a snapshot, gives exactly the concatenated payloads and the first frame's header. |
| `AudioBuffer.FormatCheck` | edge/speaking_stone_edge/main.py:39-45 | Once a reference exists, a frame differing only in sequence, payload length or flags is accepted. A frame differing in sample rate, channels or bit depth is rejected. |
| `AudioBuffer.AudioStreamBuffer.Append` | edge/speaking_stone_edge/main.py:32-47 | The in-place `append_frame` makes the buffer equal to `AppendFrame` of the old buffer, or leaves it unchanged and returns the error. It keeps the invariant that no bytes are held without a header. |
| `AudioBuffer.AudioStreamBuffer.TakeSnapshot` | edge/speaking_stone_edge/main.py:49-53 | `snapshot` on the object returns `Snapshot` of its fields and modifies nothing. |
| `AudioBuffer.AudioStreamBuffer.Clear` | edge/speaking_stone_edge/main.py:55-58 | After `clear` there are no bytes and no header. |
| `AudioBuffer.AudioStreamBuffer.constructor` | edge/speaking_stone_edge/main.py:26-30 | A new buffer holds no bytes and no header. |
| `Timing.StageTimer.constructor` | edge/speaking_stone_edge/main.py:70-72 | A new timer has no durations, and its last reading is the construction reading. |
| `Timing.StageTimer.Mark` | edge/speaking_stone_edge/main.py:74-77 | `mark` appends (name, now − last) and sets last to now. The invariant kept is that the durations add up to the last reading minus the construction reading. |
| `Timing.StageTimer.GetMetrics` | edge/speaking_stone_edge/main.py:79-89 | The `metrics` loop returns one `<name>_ms` entry per sample, the last sample of a name winning, plus `total_ms`. |
| `Timing.Metrics` | edge/speaking_stone_edge/main.py:79-89 | The entries written in order of the samples, then `total_ms`. Its properties are the lemmas below. |
| `Timing.MetricsTotal` | edge/speaking_stone_edge/main.py:79-89 | `total_ms` is always present. It equals the sum of all durations, repeated names included. |
| `Timing.MetricsEmpty` | edge/speaking_stone_edge/main.py:85-88 | Without marks, the metrics are exactly `{total_ms: 0}`. |
| `Timing.EntriesKeys` | edge/speaking_stone_edge/main.py:82-84 | The per-stage keys are exactly `<name>_ms` for the marked names. |
| `Timing.EntriesLastWins` | edge/speaking_stone_edge/main.py:82-84 | A `<name>_ms` entry holds the duration of the last sample with that name. |
| `Timing.MetricsLastWins` | edge/speaking_stone_edge/main.py:79-89 | The same holds in the returned map for every stage except one whose key collides with `total_ms`. |
| `Timing.TwoStageRun` | edge/speaking_stone_edge/main.py:67-89 | Marks "stt" at tick 50 and "llm" at tick 200 on a timer started at 0 give stt_ms 50, llm_ms 150 and total_ms 200. |
| `Session.Connection.constructor` | edge/speaking_stone_edge/main.py:116-119 | A new connection has sent `connected` and holds an empty buffer and history. |
| `Session.Connection.OnBinary` | edge/speaking_stone_edge/main.py:130-191 | The binary branch of the receive loop updates the connection exactly as `BinaryStep` says. |
| `Session.Connection.FlushTranscription` | edge/speaking_stone_edge/main.py:242-300 | `_flush_transcription` updates the connection exactly as `FlushStep` says. |
| `Session.Connection.ProcessTextInput` | edge/speaking_stone_edge/main.py:222-236 | The `text_input` branch, with its `except Exception`, updates the connection exactly as `TextInputStep` says. |
| `Session.Connection.TextTurn` | edge/speaking_stone_edge/main.py:303-348 | The body of `_process_text_input`, after the blank-text check, updates the connection exactly as `TextTurnStep` says. |
| `Session.Connection.HandleControlMessage` | edge/speaking_stone_edge/main.py:202-239 | `_handle_control_message` updates the connection exactly as `TextStep` says. |
| `Session.Connection.HandleMessage` | edge/speaking_stone_edge/main.py:124-196 | One turn of the receive loop updates the connection exactly as `Step` says. |
| `Session.Connection.Serve` | edge/speaking_stone_edge/main.py:123-199 | The receive loop handles the messages in order until it is left, ending in `Run` of the inbox. |
| `Session.BinaryStep` | edge/speaking_stone_edge/main.py:130-191 | The binary branch: a short message sends a decode error with the received size. A length mismatch sends an error with both lengths. A rejected frame clears the buffer and sends the rejection with the frame's format. An accepted frame is appended silently. |
| `Session.FlushStep` | edge/speaking_stone_edge/main.py:242-300 | `_flush_transcription`: `noop` without bytes; a ValueError from the snapshot or the recognizer is reported and clears the buffer; any other exception leaves the session; success updates the history, sends `transcription_ready` and the audio, and clears the buffer. |
| `Session.TextTurnStep` | edge/speaking_stone_edge/main.py:311-348 | The text turn: the reply, the synthesis unless skipped, the history and `transcription_ready` with the timings. An exception becomes `text_input_failed`. |
| `Session.TextInputStep` | edge/speaking_stone_edge/main.py:303-309 | The payload checks of `_process_text_input`, run inside the `except Exception` of lines 222-236: a non-object payload or a truthy non-string text is `text_input_failed`, blank text is "empty text input", anything else starts the text turn on the stripped text. |
| `Session.TextStep` | edge/speaking_stone_edge/main.py:202-239 | `_handle_control_message`: non-JSON or non-control text is echoed, a non-object value leaves the session, and control events go to the flush, the reset, the text turn or a plain `ack`. |
| `Session.Step` | edge/speaking_stone_edge/main.py:124-196 | One turn of the loop: nothing once left, a disconnect leaves it, bytes go to the binary branch, text to the control handler, and anything else gets `noop`. |
| `Session.Run` | edge/speaking_stone_edge/main.py:123-199 | The loop: each arriving message, with the collaborators' outcomes for it, handled in order. |
| `Session.TimeTextTurn` | edge/speaking_stone_edge/main.py:311-324 | The text turn's timer, fed its clock readings, yields the metrics of an "llm" sample and an optional "tts" sample. |
| `Session.RunAfterClose` | edge/speaking_stone_edge/main.py:123-129 | Once the loop has been left, later messages change nothing. |
| `SessionProps.ConnectedInvariant` | edge/speaking_stone_edge/main.py:116-119 | The state after `accept` satisfies the session invariant, and the only message sent is `connected`. |
| `SessionProps.StepKeeps` | edge/speaking_stone_edge/main.py:123-199 | Every turn of the loop keeps two invariants: the buffer holds no bytes without a header, and the history is alternating user/assistant turns. The history, the sent messages and the calls are only appended to, by at most one exchange, two messages and three calls. |
| `SessionProps.RunKeeps` | edge/speaking_stone_edge/main.py:123-199 | Over any message sequence the invariant holds, all logs only grow, and at most two messages are sent per message received. |
| `SessionProps.ClosedIgnores` | edge/speaking_stone_edge/main.py:126-129 | A session that has left its loop ignores all further messages. |
| `SessionProps.RunAppend` | edge/speaking_stone_edge/main.py:123-199 | Handling two batches of messages one after the other is handling them all in order. |
| `SessionProps.ShortFrameReported` | edge/speaking_stone_edge/main.py:130-141 | A binary message shorter than a header sends one `error` with the decode message and the received size. Nothing else changes. |
| `SessionProps.WireFrameAccepted` | edge/speaking_stone_edge/main.py:130-171 | A packed header followed by exactly payload_len bytes in the buffer's format is appended silently. The header becomes the reference unless one is held. |
| `SessionProps.WireFrameLengthMismatch` | edge/speaking_stone_edge/main.py:143-161 | Trailing bytes that disagree with payload_len send one `error` with both lengths. The buffer is untouched. |
| `SessionProps.FormatChangeResets` | edge/speaking_stone_edge/main.py:163-191 | A frame whose format differs from the reference empties the buffer. It sends one `error` naming the first differing field and carrying the frame's sequence, sample_rate, channels and bits_per_sample. |
| `SessionProps.ControlDispatch` | edge/speaking_stone_edge/main.py:214-239 | A control message reaches the handler of `speech_end`, `reset_buffer` (clear, then `ack`) or `text_input`. An unknown event gets `ack` with the event name. |
| `SessionProps.NonControlText` | edge/speaking_stone_edge/main.py:204-212 | Non-JSON text, or an object whose type is not the control type, gets `ack` echoing the raw text. A non-object JSON value ends the session with AttributeError. |
| `SessionProps.SpeechEndWithoutAudio` | edge/speaking_stone_edge/main.py:245-248 | `speech_end` with no buffered bytes sends exactly one `noop`. It calls nothing and clears nothing. |
| `SessionProps.RecognizerValueError` | edge/speaking_stone_edge/main.py:250-266 | A recognizer ValueError sends one `error` with its message and empties the buffer. The history is kept and the session goes on. |
| `SessionProps.PipelineFailureAborts` | edge/speaking_stone_edge/main.py:250-272 | Any other recognizer exception, or any generator or synthesizer exception, leaves the session. Nothing is sent, and the buffer and history are kept. |
| `SessionProps.FlushCallsRecognizerFirst` | edge/speaking_stone_edge/main.py:252-260 | With bytes buffered, the first call of a flush is the recognizer's, on the buffered bytes and the reference header. |
| `SessionProps.FlushSucceeds` | edge/speaking_stone_edge/main.py:268-300 | A successful spoken turn appends (user, transcript) then (assistant, reply) to the history. It sends `transcription_ready` with the format fields, flags and the buffered byte count, then the synthesized audio, and ends with an empty buffer. |
| `SessionProps.ZeroLengthFrameKeepsHeader` | edge/speaking_stone_edge/main.py:37-38 | A zero-length frame sets the header but buffers nothing. A following `speech_end` only sends `noop` and keeps the header, so a later frame of another format is rejected. |
| `SessionProps.TextTimingsMetrics` | edge/speaking_stone_edge/main.py:311-324 | A text turn's timings are llm_ms, tts_ms unless skipped, and total_ms as their sum from the timer's creation. |
| `SessionProps.TextInputNeverAborts` | edge/speaking_stone_edge/main.py:222-236 | A text turn never leaves the session and never touches the buffer. It always sends at least one message. |
| `SessionProps.BlankTextRefused` | edge/speaking_stone_edge/main.py:305-309 | Missing, falsy or blank text sends one "empty text input" error and calls nothing. |
| `SessionProps.TextPayloadTurn` | edge/speaking_stone_edge/main.py:305-306 | Non-blank string text starts the turn on the stripped text, with `skip_tts` taken by truthiness. |
| `SessionProps.SkippedSpeechTurn` | edge/speaking_stone_edge/main.py:311-345 | With `skip_tts` set, nothing is synthesized. `transcription_ready` carries a null header, payload_bytes 0, tts_skipped true and only the llm timing. No binary message follows. |
| `SessionProps.SpokenTextTurn` | edge/speaking_stone_edge/main.py:311-348 | Without `skip_tts`, the reply is synthesized. `transcription_ready` carries both stage times and their total, and the audio follows. |
| `SessionProps.AsWrittenSpokenTurnAborts` | edge/speaking_stone_edge/main.py:269 | With the generator as actually called, a spoken turn whose recognition succeeds leaves the session without answering. |
| `SessionProps.AsWrittenTextTurnFails` | edge/speaking_stone_edge/main.py:314 | With the generator as actually called, every non-blank text turn is answered with `text_input_failed`. |
| `Stt.Pcm16MonoSamples` | edge/speaking_stone_edge/stt_module.py:27-37 | Conversion rejects bits ≠ 16, then channels ≠ 1, then an odd byte count, in that order. Accepted PCM gives exactly len/2 samples. |
| `Stt.Int16Samples` | edge/speaking_stone_edge/stt_module.py:36 | Sample i is the signed little-endian short at bytes 2i and 2i+1. |
| `Stt.CollectText` | edge/speaking_stone_edge/stt_module.py:40-47 | The `_collect_text` loop returns the stripped, non-empty segment texts in order, joined by single spaces. |
| `Stt.Kept` | edge/speaking_stone_edge/stt_module.py:42-46 | Every kept text is non-empty and has no surrounding whitespace. |
| `Stt.JoinSpaceTrimmed` | edge/speaking_stone_edge/stt_module.py:47 | Joining trimmed texts with single spaces gives a trimmed text, and joining none gives "". |
| `Stt.CollectedTextTrimmed` | edge/speaking_stone_edge/stt_module.py:40-47 | The transcript has no leading or trailing whitespace. It is empty exactly when every segment text is blank. |
| `Stt.TranscribeAudio` | edge/speaking_stone_edge/stt_module.py:50-66 | Empty PCM gives "" before any check. Otherwise a sample rate other than 16000 fails, then the conversion checks apply, then the model's segments are collected. |
| `Llm.FindClose` | edge/speaking_stone_edge/llm_module.py:67-68 | The closing character is found only within 80 characters, with no earlier closing character. |
| `Llm.SpanReplaced` | edge/speaking_stone_edge/llm_module.py:67-68 | A span opened by `*` or `[` with at most 80 inner characters, none of them the closing character, becomes one space. |
| `Llm.RemoveSpans` | edge/speaking_stone_edge/llm_module.py:67-68 | One `re.sub` of a stage-direction pattern: scanning left to right, an opening character whose first closing character is at most 80 characters on starts a span, which becomes one space; the scan resumes after it. Its properties are the lemmas below. |
| `Llm.PrefixPassesThrough` | edge/speaking_stone_edge/llm_module.py:67-68 | Text with no opening character passes through span removal unchanged, ahead of whatever the rest becomes. |
| `Llm.SpanReplacedAnywhere` | edge/speaking_stone_edge/llm_module.py:67-68 | A bounded span after text with no opening character becomes one space wherever it stands, and the text after it is processed on its own. |
| `Llm.NoSpanUnchanged` | edge/speaking_stone_edge/llm_module.py:67-68 | Text without the opening character passes span removal unchanged. |
| `Llm.CollapseWhitespace` | edge/speaking_stone_edge/llm_module.py:70 | `re.sub(r"\s{2,}", " ", …)`: every run of two or more whitespace characters becomes one space, and a single whitespace character is kept as it is. Its properties are stated by `Llm.CollapseProperties`. |
| `Llm.CollapseProperties` | edge/speaking_stone_edge/llm_module.py:70 | After collapsing, no two whitespace characters are adjacent. The text is empty only if it was, and it starts with whitespace only if the input did. |
| `Llm.StripKeepsNoDoubleSpace` | edge/speaking_stone_edge/llm_module.py:70-71 | Stripping keeps the text free of adjacent whitespace. |
| `Llm.Cleaned` | edge/speaking_stone_edge/llm_module.py:65-71 | The five cleaning steps in order: `*…*` spans, `[…]` spans, strip then strip quotes, collapse whitespace, strip. Its shape is stated by `Llm.CleanedShape` and `Llm.QuotesRemoved`. |
| `Llm.QuotesRemoved` | edge/speaking_stone_edge/llm_module.py:69-71 | A reply wrapped in quotation marks, with no stage directions and no further quotation mark at either end inside, is cleaned to the inner text with whitespace runs collapsed and its ends stripped. |
| `Llm.CleanedShape` | edge/speaking_stone_edge/llm_module.py:65-71 | The cleaned text is already stripped and has no two adjacent whitespace characters. |
| `Llm.SanitizeReply` | edge/speaking_stone_edge/llm_module.py:65-72 | `_sanitize_reply` returns the cleaned text, or the original reply when the cleaned text is empty. A non-empty result has no surrounding whitespace and no adjacent whitespace. |
| `Llm.GenerateReply` | edge/speaking_stone_edge/llm_module.py:75-107 | Blank text or a missing or empty API key gives the fallback. So does a caught URLError or ValueError. Only other exceptions escape. A result is either the fallback or has a non-whitespace character. |
| `Llm.AnswerPolicy` | edge/speaking_stone_edge/llm_module.py:97-104 | For any body whose `choices` list starts with an object holding a `message` object with a `content` field, whatever else the body, the list and the objects hold: string content gives the sanitized reply when it has a non-whitespace character, and the fallback otherwise. Non-string content gives the fallback. |
| `Llm.NoChoicesPolicy` | edge/speaking_stone_edge/llm_module.py:97-99 | Any object body whose `choices` is missing or falsy (null, false, 0, "", an empty list or object), whatever other keys it holds, gives the fallback. |
| `PyStr.StripChars` | edge/speaking_stone_edge/__init__.py:17 | `strip(chars)` returns a contiguous slice of its input: everything before and after the slice is a stripped character, and no stripped character is left at either end. It is empty exactly when every character is stripped. |
| `PyStr.Strip` | edge/speaking_stone_edge/__init__.py:12 | `strip()` returns a contiguous slice of its input with only whitespace before and after it, and no whitespace at either end of the slice. It is empty exactly when every character is whitespace. |
| `PyStr.StripCharsIdempotent` | edge/speaking_stone_edge/llm_module.py:71 | Stripping a stripped text changes nothing. |
| `EnvFile.SplitOnceParts` | edge/speaking_stone_edge/__init__.py:15 | A line splits at its first `=`: the key holds no `=` and the value keeps any later ones. |
| `EnvFile.Unquote` | edge/speaking_stone_edge/__init__.py:17 | `value.strip().strip('"').strip("'")`: whitespace, then double quotes, then single quotes cut from both ends, in that order. |
| `EnvFile.ParseLine` | edge/speaking_stone_edge/__init__.py:12-17 | One line: skipped, or the stripped key and unquoted value of its first-`=` split. Its cases are stated by `EnvFile.ParseLineCases` and `EnvFile.SplitOnceParts`. |
| `EnvFile.ParseLineCases` | edge/speaking_stone_edge/__init__.py:12-17 | After stripping, blank lines, `#` lines and lines without `=` are skipped. Any other line gives the trimmed key and the unquoted value of its first-`=` split. |
| `EnvFile.LoadLines` | edge/speaking_stone_edge/__init__.py:11-20 | The loop over the lines: each parsed entry with a non-empty key not yet in the environment is set, in order. Its properties are `EnvFile.ExistingKept`, `EnvFile.LoadedKeys` and `EnvFile.FirstOccurrenceWins`. |
| `EnvFile.ExistingKept` | edge/speaking_stone_edge/__init__.py:19-20 | A key already in the environment keeps its value. |
| `EnvFile.LoadedKeys` | edge/speaking_stone_edge/__init__.py:11-20 | The keys afterwards are those before, plus the non-empty keys the lines name. No other key appears, and the empty key is never added. |
| `EnvFile.FirstOccurrenceWins` | edge/speaking_stone_edge/__init__.py:19-20 | For a key not set before, the first line naming it decides its value. |
| `EnvFile.LoadEnvFile` | edge/speaking_stone_edge/__init__.py:6-20 | A missing file changes nothing. Otherwise the loop writes into the environment exactly what the parsed lines, applied in order, give. |
| `Simulator.Chunks` | edge/tools/audio_ws_simulator.py:117-118 | `[data[i:i + n] for i in range(0, len(data), n)]` for positive n. Its properties are the lemmas below. |
| `Simulator.ChunkBytes` | edge/tools/audio_ws_simulator.py:117-118 | A zero chunk size raises, a negative one gives no chunks, and a positive one cuts the data. |
| `Simulator.ChunksConcat` | edge/tools/audio_ws_simulator.py:117-118 | The chunks put back together are the data. |
| `Simulator.ChunksCount` | edge/tools/audio_ws_simulator.py:117-118 | There are ceil(len / n) chunks, so empty data gives none. |
| `Simulator.ChunksSizes` | edge/tools/audio_ws_simulator.py:117-118 | Every chunk is non-empty and at most n long. All but the last are exactly n long. |
| `Simulator.ChunkAt` | edge/tools/audio_ws_simulator.py:117-118 | Chunk k is the slice from k·n to k·n + n, cut short at the end of the data. |
| `Simulator.ChunkSize` | edge/tools/audio_ws_simulator.py:141-143 | `max(1, sample_rate * chunk_ms // 1000)` samples of `(bits_per_sample // 8) * channels` bytes each. |
| `Simulator.ChunkSizePositive` | edge/tools/audio_ws_simulator.py:141-143 | With at least 8 bits and one channel, the chunk size is positive. |
| `Simulator.Frames` | edge/tools/audio_ws_simulator.py:145-155 | The frame loop: chunk k goes out behind a header with sequence k and payload_len equal to its length, until a header fails to pack. Its properties are the lemmas below. |
| `Simulator.FramesContent` | edge/tools/audio_ws_simulator.py:145-155 | Frame k is the packed header with sequence k and payload_len = len(chunk k), followed by that chunk. The server decodes it to that header, and its trailing length equals payload_len. |
| `Simulator.FramesSucceed` | edge/tools/audio_ws_simulator.py:145-155 | Every header packs exactly when each numbered frame's fields fit their formats. |
| `Simulator.FramesStopAtError` | edge/tools/audio_ws_simulator.py:145-155 | After a header fails to pack, later chunks add nothing. |
| `Simulator.Transmit` | edge/tools/audio_ws_simulator.py:133-158 | `_send_audio_frames`: chunking, the frames, then `speech_end` when nothing raised. Its properties are the lemmas below and `Simulator.SendAudioFrames`. |
| `Simulator.TransmitEndsWithSpeechEnd` | edge/tools/audio_ws_simulator.py:145-158 | A transmission that raised nothing is binary frames followed by exactly one `speech_end`, which comes last. |
| `Simulator.TransmitCarriesPcm` | edge/tools/audio_ws_simulator.py:133-158 | With at least 8 bits and one channel, the chunker cannot raise. The frames sent carry chunks that concatenate to the PCM, then `speech_end`. |
| `Simulator.SendAudioFrames` | edge/tools/audio_ws_simulator.py:133-158 | The sending loop numbers frames from 0 and stops at the first header that does not pack. It returns exactly `Transmit`. |
| `Loopback.FramesFillBuffer` | edge/tools/audio_ws_simulator.py:145-155 | A fresh session receiving the client's frames accepts them all without replying. It holds all chunks in order behind the header of frame 0. |
| `Loopback.TransmitThenFlush` | edge/tools/audio_ws_simulator.py:133-158 | Replaying PCM through the client leaves the server buffering exactly that PCM behind a sequence-0 header in the client's format. The closing `speech_end` runs the flush on it. |
| `Loopback.RecognizerHearsClient` | edge/speaking_stone_edge/main.py:252-260 | After a replay of non-empty PCM, the server's first collaborator call is the recognizer's, on exactly that PCM in the client's format. |

## Findings

| source | as written | input that shows it | evidently intended | confidence | as-written member | corrected member |
|---|---|---|---|---|---|---|
| edge/speaking_stone_edge/main.py:269 | `generate_reply(transcript, chat_history)` is called with two arguments. The function at edge/speaking_stone_edge/llm_module.py:75 takes one, so the call raises TypeError. | Any `speech_end` with buffered audio that the recognizer transcribes, or any non-blank `text_input` (main.py:314). | A generator that takes the transcript and the history and returns a reply, or the fallback, without raising. | high; not executed | `SessionProps.AsWrittenSpokenTurnAborts` | `SessionProps.FlushSucceeds` |

The rest of the model uses the corrected reading: the generator is an abstract two-argument
collaborator that may succeed. `SessionProps.ArityMismatch` is the as-written generator.
`SessionProps.AsWrittenTextTurnFails` shows the same mismatch in the text turn, where
`except Exception` turns it into a `text_input_failed` error.

## Left out

- Websocket transport: `accept`, `receive`, `send_text` and `send_bytes` become the session's inbound messages and its outbox. Logging, `root_status` and the startup model warm-up are left out.
- JSON text: `json.dumps` and `json.loads` are not modelled. A text message carries its raw text and what `json.loads` made of it (nothing when it is not JSON). Floating-point JSON numbers are not represented.
- Time: clock readings are integer ticks passed in (one tick is a millisecond). The `round(…, 2)` of `metrics` and `_estimate_duration_ms` (float arithmetic used only in a log line) are left out. The spoken turn's timer only feeds a log line, so the flush does not model it.
- Whisper: `_get_model`, `model.transcribe` and the int16 to float32 scaling are a foreign library plus floats. The model is a function from the decoded 16-bit samples to segment texts, and the recognizer the session calls is a parameter.
- OpenRouter: the HTTP request, headers, environment configuration and system-prompt file are left out. `_post_openrouter` is an outcome passed in, and the API key an optional string.
- `tts_module.synthesize_speech` is an abstract synthesizer passed in.
- `.env` loading: locating and reading the file and `splitlines` are left out. The loader gets the file's lines, or nothing when the file is missing.
- Replay client: WAV loading, numpy conversion and resampling, `asyncio.sleep` between frames and the response listener are left out. The socket is the list of messages sent.
- Python `str.strip` and `\s`: whitespace is the fixed set of characters `str.isspace()` accepts. No other Unicode handling is modelled.
- Concurrency: one session, strictly sequential. Cancellation of an in-flight flush on disconnect is not modelled, and neither are other sessions.
- `EnvFile.LoadEnvFile`: a key or value holding a NUL character makes `os.environ[key] = value` raise ValueError ("embedded null byte"). The exception escapes the loader and the package import fails. The model sets such an entry like any other.
- The push-to-talk microphone client, the chat simulator and the firmware are not part of this model.
