/**
 * The replay client talking to the server: the messages `_send_audio_frames` puts on
 * the socket, received in order by a fresh `/ws/audio` session. The JSON text of a
 * control message is whatever `dumps` makes of it; the server decodes it back to the
 * same object.
 */
module Loopback {
  import opened Wrappers
  import opened JsonValue
  import opened Protocol
  import opened AudioBuffer
  import opened Session
  import opened SessionProps
  import Simulator

  /** What the server's `receive` returns for a message the client sent. */
  function Deliver(m: Simulator.ClientMessage, dumps: Json -> string): Inbound {
    match m
    case SendBinary(data) => Message(Some(data), None)
    case SendText(control) => Message(None, Some(TextFrame(dumps(control), Some(control))))
  }

  /** The client's messages in the order they arrive, each handled while the collaborators behave as `w`. */
  function DeliverAll(ms: seq<Simulator.ClientMessage>, dumps: Json -> string, w: Collaborators): (r: seq<Arrival>)
    ensures |r| == |ms|
  {
    if ms == [] then [] else DeliverAll(ms[..|ms| - 1], dumps, w) + [Arrival(Deliver(ms[|ms| - 1], dumps), w)]
  }

  lemma DeliverAllSnoc(ms: seq<Simulator.ClientMessage>, m: Simulator.ClientMessage, dumps: Json -> string, w: Collaborators)
    ensures DeliverAll(ms + [m], dumps, w) == DeliverAll(ms, dumps, w) + [Arrival(Deliver(m, dumps), w)]
  {
    assert (ms + [m])[..|ms|] == ms;
  }

  lemma RunStep(s: SessionState, inbox: seq<Arrival>, a: Arrival)
    ensures Run(s, inbox + [a]) == Step(Run(s, inbox), a.message, a.services)
  {
    assert (inbox + [a])[..|inbox|] == inbox;
  }

  lemma {:induction false} ConcatSnoc(xs: seq<seq<byte>>, x: seq<byte>)
    ensures Simulator.Concat(xs + [x]) == Simulator.Concat(xs) + x
  {
    if xs == [] {
      assert [x][1..] == [];
    } else {
      assert (xs + [x])[1..] == xs[1..] + [x];
      ConcatSnoc(xs[1..], x);
    }
  }

  /** The last frame of a transmission that raised nothing carries the last chunk behind its packed header. */
  lemma LastFrame(chunks: seq<seq<byte>>, sampleRate: int, channels: int, bitsPerSample: int)
    requires chunks != [] && Simulator.Frames(chunks, sampleRate, channels, bitsPerSample).error.None?
    ensures var n := |chunks| - 1;
      var h := Simulator.FrameHeader(n, chunks[n], sampleRate, channels, bitsPerSample);
      && Packable(h)
      && Simulator.Frames(chunks[..n], sampleRate, channels, bitsPerSample).error.None?
      && Simulator.Frames(chunks, sampleRate, channels, bitsPerSample).sent ==
        Simulator.Frames(chunks[..n], sampleRate, channels, bitsPerSample).sent + [Simulator.SendBinary(Pack(h).value + chunks[n])]
  {
  }

  /**
   * A fresh session that receives the frames of `chunks` accepts every one of them
   * without a reply: it ends up holding all chunks, in order, behind the header of
   * frame 0.
   */
  lemma {:induction false} FramesFillBuffer(chunks: seq<seq<byte>>, sampleRate: int, channels: int, bitsPerSample: int,
      dumps: Json -> string, w: Collaborators)
    requires Simulator.Frames(chunks, sampleRate, channels, bitsPerSample).error.None?
    ensures Run(Connected, DeliverAll(Simulator.Frames(chunks, sampleRate, channels, bitsPerSample).sent, dumps, w)) ==
      Connected.(buffer := if chunks == [] then Empty
        else BufferState(Simulator.Concat(chunks), Some(Simulator.FrameHeader(0, chunks[0], sampleRate, channels, bitsPerSample))))
  {
    if chunks != [] {
      var n := |chunks| - 1;
      var init := chunks[..n];
      var before := Simulator.Frames(init, sampleRate, channels, bitsPerSample);
      var h := Simulator.FrameHeader(n, chunks[n], sampleRate, channels, bitsPerSample);
      LastFrame(chunks, sampleRate, channels, bitsPerSample);
      var frame := Simulator.SendBinary(Pack(h).value + chunks[n]);
      FramesFillBuffer(init, sampleRate, channels, bitsPerSample, dumps, w);
      var s := Run(Connected, DeliverAll(before.sent, dumps, w));
      DeliverAllSnoc(before.sent, frame, dumps, w);
      RunStep(Connected, DeliverAll(before.sent, dumps, w), Arrival(Deliver(frame, dumps), w));
      if n > 0 {
        assert init[0] == chunks[0];
      }
      WireFrameAccepted(s, h, chunks[n], None, w);
      ConcatSnoc(init, chunks[n]);
      assert init + [chunks[n]] == chunks;
    }
  }

  /** The state a fresh session is in once it has received every frame of the PCM `pcm`. */
  function Received(pcm: seq<byte>, sampleRate: int, channels: int, bitsPerSample: int, chunkMs: int): BufferState
    requires bitsPerSample >= 8 && channels >= 1
  {
    Simulator.ChunkSizePositive(sampleRate, channels, bitsPerSample, chunkMs);
    var chunks := Simulator.Chunks(pcm, Simulator.ChunkSize(sampleRate, channels, bitsPerSample, chunkMs));
    if chunks == [] then Empty
    else BufferState(Simulator.Concat(chunks), Some(Simulator.FrameHeader(0, chunks[0], sampleRate, channels, bitsPerSample)))
  }

  /**
   * Replaying PCM through the client: when nothing raised on the client side, the
   * server buffers exactly the client's PCM, behind a header of sequence 0 with the
   * client's format, and the closing `speech_end` runs the pipeline on it.
   */
  lemma TransmitThenFlush(pcm: seq<byte>, sampleRate: int, channels: int, bitsPerSample: int, chunkMs: int,
      dumps: Json -> string, w: Collaborators)
    requires bitsPerSample >= 8 && channels >= 1
    requires Simulator.Transmit(pcm, sampleRate, channels, bitsPerSample, chunkMs).error.None?
    ensures var received := Received(pcm, sampleRate, channels, bitsPerSample, chunkMs);
      && received.pcm == pcm
      && (pcm == [] <==> received.header.None?)
      && (received.header.Some? ==>
        var h := received.header.value;
        h.sequence == 0 && h.sampleRate == sampleRate && h.channels == channels && h.bitsPerSample == bitsPerSample)
    ensures var t := Simulator.Transmit(pcm, sampleRate, channels, bitsPerSample, chunkMs);
      Run(Connected, DeliverAll(t.sent, dumps, w)) ==
        FlushStep(Connected.(buffer := Received(pcm, sampleRate, channels, bitsPerSample, chunkMs)), w)
  {
    var size := Simulator.ChunkSize(sampleRate, channels, bitsPerSample, chunkMs);
    Simulator.TransmitCarriesPcm(pcm, sampleRate, channels, bitsPerSample, chunkMs);
    var chunks := Simulator.Chunks(pcm, size);
    var frames := Simulator.Frames(chunks, sampleRate, channels, bitsPerSample);
    var t := Simulator.Transmit(pcm, sampleRate, channels, bitsPerSample, chunkMs);
    assert t.sent == frames.sent + [Simulator.SPEECH_END];
    FramesFillBuffer(chunks, sampleRate, channels, bitsPerSample, dumps, w);
    assert chunks == [] <==> pcm == [] by {
      if chunks == [] {
        assert Simulator.Concat(chunks) == [];
      }
    }
    var s := Run(Connected, DeliverAll(frames.sent, dumps, w));
    assert s == Connected.(buffer := Received(pcm, sampleRate, channels, bitsPerSample, chunkMs));
    DeliverAllSnoc(frames.sent, Simulator.SPEECH_END, dumps, w);
    RunStep(Connected, DeliverAll(frames.sent, dumps, w), Arrival(Deliver(Simulator.SPEECH_END, dumps), w));
    var raw := dumps(EncodeControl("speech_end", JObj(map[])));
    assert Deliver(Simulator.SPEECH_END, dumps) == ControlText(raw, "speech_end", JObj(map[]));
    ControlDispatch(s, raw, "speech_end", JObj(map[]), w);
  }

  /**
   * So the first call the server makes after a replay of non-empty PCM is the
   * recogniser's, on exactly that PCM in the client's format.
   */
  lemma RecognizerHearsClient(pcm: seq<byte>, sampleRate: int, channels: int, bitsPerSample: int, chunkMs: int,
      dumps: Json -> string, w: Collaborators)
    requires bitsPerSample >= 8 && channels >= 1 && pcm != []
    requires Simulator.Transmit(pcm, sampleRate, channels, bitsPerSample, chunkMs).error.None?
    ensures var t := Simulator.Transmit(pcm, sampleRate, channels, bitsPerSample, chunkMs);
      var after := Run(Connected, DeliverAll(t.sent, dumps, w));
      && after.calls != [] && after.calls[0].Recognize? && after.calls[0].pcm == pcm
      && after.calls[0].header.sequence == 0
      && after.calls[0].header.sampleRate == sampleRate
      && after.calls[0].header.channels == channels
      && after.calls[0].header.bitsPerSample == bitsPerSample
  {
    TransmitThenFlush(pcm, sampleRate, channels, bitsPerSample, chunkMs, dumps, w);
    var received := Received(pcm, sampleRate, channels, bitsPerSample, chunkMs);
    FlushCallsRecognizerFirst(Connected.(buffer := received), w);
  }
}
