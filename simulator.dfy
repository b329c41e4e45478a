/**
 * The sending half of the WAV replay client: `_chunk_bytes`, which cuts the PCM into
 * fixed-size chunks, and `_send_audio_frames`, which sends each chunk behind its
 * header, numbering the frames, and then sends `speech_end`. The websocket is the
 * list of messages sent; the pauses between frames are not modelled.
 */
module Simulator {
  import opened Wrappers
  import opened JsonValue
  import opened Protocol

  /** The pieces `data[i : i + n]` for i = 0, n, 2n, ... below `|data|`. */
  function Chunks(data: seq<byte>, n: nat): seq<seq<byte>>
    requires n > 0
    decreases |data|
  {
    if data == [] then []
    else if |data| <= n then [data]
    else [data[..n]] + Chunks(data[n..], n)
  }

  /** The bytes of the chunks, one after another. */
  function Concat(chunks: seq<seq<byte>>): seq<byte> {
    if chunks == [] then [] else chunks[0] + Concat(chunks[1..])
  }

  /** Why `_chunk_bytes` raises: `range` refuses a zero step. */
  datatype ChunkError = ZeroStep

  /**
   * `_chunk_bytes(data, chunk_size)`. A zero size raises; a negative one is an empty
   * range, so no chunks; a positive one cuts the data.
   */
  function ChunkBytes(data: seq<byte>, size: int): (r: Result<seq<seq<byte>>, ChunkError>)
    ensures r.Failure? <==> size == 0
    ensures size < 0 ==> r == Success([])
    ensures size > 0 ==> r == Success(Chunks(data, size))
  {
    if size == 0 then Failure(ZeroStep)
    else if size < 0 then Success([])
    else Success(Chunks(data, size))
  }

  /** The chunks put back together are the data. */
  lemma {:induction false} ChunksConcat(data: seq<byte>, n: nat)
    requires n > 0
    ensures Concat(Chunks(data, n)) == data
    decreases |data|
  {
    if |data| > n {
      ChunksConcat(data[n..], n);
      assert data == data[..n] + data[n..];
    }
  }

  /** There are ceil(|data| / n) chunks: none for empty data. */
  lemma {:induction false} ChunksCount(data: seq<byte>, n: nat)
    requires n > 0
    ensures |Chunks(data, n)| == (|data| + n - 1) / n
    decreases |data|
  {
    if |data| > n {
      var rest := data[n..];
      ChunksCount(rest, n);
      DivStep(|rest| + n - 1, n);
    } else if data != [] {
      DivOne(|data| + n - 1, n);
    }
  }

  lemma DivStep(m: nat, n: nat)
    requires n > 0
    ensures (m + n) / n == m / n + 1
  {
    var q, r := m / n, m % n;
    assert m == q * n + r && 0 <= r < n;
    assert m + n == (q + 1) * n + r;
    DivUnique(m + n, n, q + 1, r);
  }

  lemma MulMonotone(x: int, y: int, n: int)
    requires x <= y && n > 0
    ensures x * n <= y * n
  {
  }

  lemma DivUnique(a: int, n: int, q: int, r: int)
    requires n > 0 && a == q * n + r && 0 <= r < n
    ensures a / n == q
  {
    var q' := a / n;
    assert a == q' * n + a % n;
    if q' > q {
      MulMonotone(q + 1, q', n);
      assert false;
    } else if q' < q {
      MulMonotone(q' + 1, q, n);
      assert false;
    }
  }

  lemma DivOne(m: nat, n: nat)
    requires n <= m < 2 * n
    ensures m / n == 1
  {
  }

  /** Every chunk is non-empty and at most `n` long, and every chunk but the last is exactly `n` long. */
  lemma {:induction false} ChunksSizes(data: seq<byte>, n: nat)
    requires n > 0
    ensures var cs := Chunks(data, n);
      && (forall k :: 0 <= k < |cs| ==> 0 < |cs[k]| <= n)
      && (forall k :: 0 <= k < |cs| - 1 ==> |cs[k]| == n)
    decreases |data|
  {
    if |data| > n {
      var rest := data[n..];
      ChunksSizes(rest, n);
      var cs := Chunks(data, n);
      assert cs == [data[..n]] + Chunks(rest, n);
      assert forall k :: 1 <= k < |cs| ==> cs[k] == Chunks(rest, n)[k - 1];
    }
  }

  /** The `k`th chunk is the slice `data[k * n : k * n + n]`, cut short at the end of the data. */
  lemma {:induction false} ChunkAt(data: seq<byte>, n: nat, k: nat)
    requires n > 0 && k < |Chunks(data, n)|
    ensures k * n < |data|
    ensures Chunks(data, n)[k] == data[k * n .. if k * n + n <= |data| then k * n + n else |data|]
    decreases |data|
  {
    if k > 0 {
      assert |data| > n;
      var rest := data[n..];
      assert Chunks(data, n) == [data[..n]] + Chunks(rest, n);
      ChunkAt(rest, n, k - 1);
      var lo := (k - 1) * n;
      MulStep(k, n);
      var hi := if lo + n <= |rest| then lo + n else |rest|;
      assert Chunks(data, n)[k] == rest[lo..hi];
      assert rest[lo..hi] == data[lo + n..hi + n];
    }
  }

  lemma MulStep(k: nat, n: nat)
    requires k > 0
    ensures k * n == (k - 1) * n + n
  {
  }

  /** `max(1, sample_rate * chunk_ms // 1000) * ((bits_per_sample // 8) * channels)`. */
  function ChunkSize(sampleRate: int, channels: int, bitsPerSample: int, chunkMs: int): int {
    var samples := sampleRate * chunkMs / 1000;
    (if samples > 1 then samples else 1) * ((bitsPerSample / 8) * channels)
  }

  /** With at least 8 bits per sample and at least one channel the chunk size is positive. */
  lemma ChunkSizePositive(sampleRate: int, channels: int, bitsPerSample: int, chunkMs: int)
    requires bitsPerSample >= 8 && channels >= 1
    ensures ChunkSize(sampleRate, channels, bitsPerSample, chunkMs) > 0
  {
    var samples := sampleRate * chunkMs / 1000;
    var perChunk := if samples > 1 then samples else 1;
    var width := bitsPerSample / 8;
    assert width >= 1;
    assert width * channels >= 1 by {
      assert width * channels >= width * 1;
    }
    assert perChunk * (width * channels) >= perChunk * 1;
  }

  /** What the client puts on the socket. */
  datatype ClientMessage = SendBinary(data: seq<byte>) | SendText(control: Json)

  /** Why `_send_audio_frames` stops: the chunker raised, or a header did not pack. */
  datatype SendError = ChunkingFailed(chunk: ChunkError) | HeaderRejected(pack: PackError)

  /** The messages sent and the exception that ended the sending, if any. */
  datatype Transmission = Transmission(sent: seq<ClientMessage>, error: Option<SendError>)

  /** The header of frame number `sequence`, carrying `chunk`. */
  function FrameHeader(sequence: nat, chunk: seq<byte>, sampleRate: int, channels: int, bitsPerSample: int): Header {
    Header(sequence, |chunk|, sampleRate, channels, bitsPerSample)
  }

  /** The frames of `chunks`, numbered from 0, up to the first header that does not pack. */
  function Frames(chunks: seq<seq<byte>>, sampleRate: int, channels: int, bitsPerSample: int): Transmission
  {
    if chunks == [] then Transmission([], None)
    else
      var before := Frames(chunks[..|chunks| - 1], sampleRate, channels, bitsPerSample);
      var chunk := chunks[|chunks| - 1];
      if before.error.Some? then before
      else
        match Pack(FrameHeader(|chunks| - 1, chunk, sampleRate, channels, bitsPerSample))
        case Failure(e) => Transmission(before.sent, Some(HeaderRejected(e)))
        case Success(head) => Transmission(before.sent + [SendBinary(head + chunk)], None)
  }

  /** One more chunk: the frames so far, then that chunk's frame unless something already failed. */
  lemma FramesStep(chunks: seq<seq<byte>>, i: nat, sampleRate: int, channels: int, bitsPerSample: int)
    requires i < |chunks|
    ensures var before := Frames(chunks[..i], sampleRate, channels, bitsPerSample);
      Frames(chunks[..i + 1], sampleRate, channels, bitsPerSample) ==
        if before.error.Some? then before
        else match Pack(FrameHeader(i, chunks[i], sampleRate, channels, bitsPerSample))
          case Failure(e) => Transmission(before.sent, Some(HeaderRejected(e)))
          case Success(head) => Transmission(before.sent + [SendBinary(head + chunks[i])], None)
  {
    assert chunks[..i + 1][..i] == chunks[..i];
  }

  const SPEECH_END: ClientMessage := SendText(EncodeControl("speech_end", JObj(map[])))

  /** Everything `_send_audio_frames` sends: the frames, then `speech_end` if nothing raised. */
  function Transmit(pcm: seq<byte>, sampleRate: int, channels: int, bitsPerSample: int, chunkMs: int): Transmission {
    match ChunkBytes(pcm, ChunkSize(sampleRate, channels, bitsPerSample, chunkMs))
    case Failure(e) => Transmission([], Some(ChunkingFailed(e)))
    case Success(chunks) =>
      var frames := Frames(chunks, sampleRate, channels, bitsPerSample);
      if frames.error.None? then Transmission(frames.sent + [SPEECH_END], None) else frames
  }

  /** Once a header has failed to pack, later chunks add nothing. */
  lemma {:induction false} FramesStopAtError(chunks: seq<seq<byte>>, i: nat, sampleRate: int, channels: int, bitsPerSample: int)
    requires i <= |chunks|
    requires Frames(chunks[..i], sampleRate, channels, bitsPerSample).error.Some?
    ensures Frames(chunks, sampleRate, channels, bitsPerSample) == Frames(chunks[..i], sampleRate, channels, bitsPerSample)
  {
    if i < |chunks| {
      var init := chunks[..|chunks| - 1];
      assert init[..i] == chunks[..i];
      FramesStopAtError(init, i, sampleRate, channels, bitsPerSample);
    } else {
      assert chunks[..i] == chunks;
    }
  }

  /**
   * When every header packs, frame `k` is the packed header numbered `k` for `chunks[k]`
   * followed by that chunk: the server decodes it back to that header, and the bytes
   * after the header are exactly `payload_len` long.
   */
  lemma {:induction false} FramesContent(chunks: seq<seq<byte>>, sampleRate: int, channels: int, bitsPerSample: int)
    ensures var t := Frames(chunks, sampleRate, channels, bitsPerSample);
      t.error.None? ==>
        && |t.sent| == |chunks|
        && forall k :: 0 <= k < |chunks| ==>
          var h := FrameHeader(k, chunks[k], sampleRate, channels, bitsPerSample);
          && Packable(h)
          && t.sent[k] == SendBinary(Pack(h).value + chunks[k])
          && Unpack(t.sent[k].data) == Success(h)
          && |t.sent[k].data| - HEADER_SIZE == h.payloadLen
  {
    var t := Frames(chunks, sampleRate, channels, bitsPerSample);
    if chunks != [] && t.error.None? {
      var n := |chunks| - 1;
      var init := chunks[..n];
      var before := Frames(init, sampleRate, channels, bitsPerSample);
      FramesContent(init, sampleRate, channels, bitsPerSample);
      forall k | 0 <= k < |chunks|
        ensures var h := FrameHeader(k, chunks[k], sampleRate, channels, bitsPerSample);
          && Packable(h)
          && t.sent[k] == SendBinary(Pack(h).value + chunks[k])
          && Unpack(t.sent[k].data) == Success(h)
          && |t.sent[k].data| - HEADER_SIZE == h.payloadLen
      {
        var h := FrameHeader(k, chunks[k], sampleRate, channels, bitsPerSample);
        if k < n {
          assert init[k] == chunks[k];
          assert t.sent[k] == before.sent[k];
        }
        PackUnpack(h, chunks[k]);
      }
    }
  }

  /** Every header packs exactly when there are at most 65536 chunks, each at most 65535 bytes, and the format fits. */
  lemma {:induction false} FramesSucceed(chunks: seq<seq<byte>>, sampleRate: int, channels: int, bitsPerSample: int)
    ensures Frames(chunks, sampleRate, channels, bitsPerSample).error.None? <==>
      forall k :: 0 <= k < |chunks| ==> Packable(FrameHeader(k, chunks[k], sampleRate, channels, bitsPerSample))
  {
    if chunks != [] {
      var n := |chunks| - 1;
      var init := chunks[..n];
      FramesSucceed(init, sampleRate, channels, bitsPerSample);
      assert forall k :: 0 <= k < n ==> init[k] == chunks[k];
    }
  }

  /**
   * A transmission that raised nothing is one binary frame per chunk followed by exactly
   * one text message, `speech_end`, which comes last.
   */
  lemma TransmitEndsWithSpeechEnd(pcm: seq<byte>, sampleRate: int, channels: int, bitsPerSample: int, chunkMs: int)
    ensures var t := Transmit(pcm, sampleRate, channels, bitsPerSample, chunkMs);
      t.error.None? ==>
        && t.sent != []
        && t.sent[|t.sent| - 1] == SPEECH_END
        && forall k :: 0 <= k < |t.sent| - 1 ==> t.sent[k].SendBinary?
  {
    var size := ChunkSize(sampleRate, channels, bitsPerSample, chunkMs);
    var t := Transmit(pcm, sampleRate, channels, bitsPerSample, chunkMs);
    if t.error.None? {
      var chunks := ChunkBytes(pcm, size).value;
      FramesContent(chunks, sampleRate, channels, bitsPerSample);
    }
  }

  /**
   * With at least 8 bits and one channel the chunker cannot raise, and a transmission that
   * raised nothing sends the frames of chunks that put together are the PCM, then `speech_end`.
   */
  lemma TransmitCarriesPcm(pcm: seq<byte>, sampleRate: int, channels: int, bitsPerSample: int, chunkMs: int)
    requires bitsPerSample >= 8 && channels >= 1
    ensures var size := ChunkSize(sampleRate, channels, bitsPerSample, chunkMs);
      && size > 0
      && Transmit(pcm, sampleRate, channels, bitsPerSample, chunkMs).error != Some(ChunkingFailed(ZeroStep))
      && Concat(Chunks(pcm, size)) == pcm
    ensures var size := ChunkSize(sampleRate, channels, bitsPerSample, chunkMs);
      var t := Transmit(pcm, sampleRate, channels, bitsPerSample, chunkMs);
      t.error.None? ==> t.sent == Frames(Chunks(pcm, size), sampleRate, channels, bitsPerSample).sent + [SPEECH_END]
  {
    var size := ChunkSize(sampleRate, channels, bitsPerSample, chunkMs);
    ChunkSizePositive(sampleRate, channels, bitsPerSample, chunkMs);
    ChunksConcat(pcm, size);
    var frames := Frames(Chunks(pcm, size), sampleRate, channels, bitsPerSample);
    if frames.error.Some? {
      match frames.error.value
      case HeaderRejected(_) =>
      case ChunkingFailed(_) => FramesNeverChunkError(Chunks(pcm, size), sampleRate, channels, bitsPerSample);
    }
  }

  /** The frame loop itself only ever stops on a header. */
  lemma {:induction false} FramesNeverChunkError(chunks: seq<seq<byte>>, sampleRate: int, channels: int, bitsPerSample: int)
    ensures var e := Frames(chunks, sampleRate, channels, bitsPerSample).error;
      e.Some? ==> e.value.HeaderRejected?
  {
    if chunks != [] {
      FramesNeverChunkError(chunks[..|chunks| - 1], sampleRate, channels, bitsPerSample);
    }
  }

  /**
   * `_send_audio_frames`: the loop that numbers and sends the frames, raising at the
   * first header that does not pack, then `speech_end`.
   */
  method SendAudioFrames(pcm: seq<byte>, sampleRate: int, channels: int, bitsPerSample: int, chunkMs: int)
    returns (t: Transmission)
    ensures t == Transmit(pcm, sampleRate, channels, bitsPerSample, chunkMs)
  {
    var bytesPerSample := (bitsPerSample / 8) * channels;
    var samplesPerChunk := sampleRate * chunkMs / 1000;
    if samplesPerChunk < 1 {
      samplesPerChunk := 1;
    }
    var chunkSize := samplesPerChunk * bytesPerSample;
    var chunked := ChunkBytes(pcm, chunkSize);
    if chunked.Failure? {
      return Transmission([], Some(ChunkingFailed(chunked.error)));
    }
    var chunks := chunked.value;
    var sent: seq<ClientMessage> := [];
    var sequence := 0;
    while sequence < |chunks|
      invariant 0 <= sequence <= |chunks|
      invariant Transmission(sent, None) == Frames(chunks[..sequence], sampleRate, channels, bitsPerSample)
    {
      var chunk := chunks[sequence];
      FramesStep(chunks, sequence, sampleRate, channels, bitsPerSample);
      var header := Header(sequence, |chunk|, sampleRate, channels, bitsPerSample);
      var packed := Pack(header);
      if packed.Failure? {
        FramesStopAtError(chunks, sequence + 1, sampleRate, channels, bitsPerSample);
        return Transmission(sent, Some(HeaderRejected(packed.error)));
      }
      sent := sent + [SendBinary(packed.value + chunk)];
      sequence := sequence + 1;
    }
    assert chunks[..|chunks|] == chunks;
    t := Transmission(sent + [SPEECH_END], None);
  }
}
