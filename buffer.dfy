/**
 * The per-connection utterance buffer (`AudioStreamBuffer`): the PCM bytes of the
 * frames accepted so far and the header of the first of them, which fixes the audio
 * format for the rest of the utterance.
 */
module AudioBuffer {
  import opened Wrappers
  import opened Protocol

  /** The ValueErrors `append_frame` raises, in the order it checks for them. */
  datatype AppendError =
    | PayloadLengthMismatch
    | SampleRateChanged
    | ChannelCountChanged
    | BitDepthChanged

  function AppendErrorMessage(e: AppendError): string {
    match e
    case PayloadLengthMismatch => "payload length mismatch"
    case SampleRateChanged => "sample rate changed mid-stream"
    case ChannelCountChanged => "channel count changed mid-stream"
    case BitDepthChanged => "bit depth changed mid-stream"
  }

  /** The ValueError `snapshot` raises when no header is held. */
  datatype SnapshotError = NoAudioBuffered

  function SnapshotErrorMessage(e: SnapshotError): string {
    "no audio buffered yet"
  }

  /** The buffer's two fields as a value. */
  datatype BufferState = BufferState(pcm: seq<byte>, header: Option<Header>)

  const Empty: BufferState := BufferState([], None)

  /** The buffer invariant: without a reference header there are no bytes. */
  predicate Consistent(b: BufferState) {
    b.header.None? ==> b.pcm == []
  }

  /** The three fields a frame must share with the reference header. */
  predicate SameFormat(reference: Header, h: Header) {
    h.sampleRate == reference.sampleRate
    && h.channels == reference.channels
    && h.bitsPerSample == reference.bitsPerSample
  }

  /**
   * `append_frame` on the buffer `b`. A frame is rejected, leaving the buffer as it
   * was, when its header's payload_len is not the payload's length or, once a
   * reference header exists, when its format differs from it. An accepted frame's
   * bytes are appended and the first accepted header stays the reference.
   */
  function AppendFrame(b: BufferState, h: Header, payload: seq<byte>): (r: Result<BufferState, AppendError>)
    ensures r.Failure? <==> h.payloadLen != |payload| || (b.header.Some? && !SameFormat(b.header.value, h))
    ensures h.payloadLen != |payload| ==> r == Failure(PayloadLengthMismatch)
    ensures r.Success? ==> r.value.pcm == b.pcm + payload
    ensures r.Success? ==> r.value.header == Some(if b.header.None? then h else b.header.value)
    ensures r.Success? ==> Consistent(r.value)
  {
    if h.payloadLen != |payload| then Failure(PayloadLengthMismatch)
    else if b.header.None? then Success(BufferState(b.pcm + payload, Some(h)))
    else
      var reference := b.header.value;
      if h.sampleRate != reference.sampleRate then Failure(SampleRateChanged)
      else if h.channels != reference.channels then Failure(ChannelCountChanged)
      else if h.bitsPerSample != reference.bitsPerSample then Failure(BitDepthChanged)
      else Success(BufferState(b.pcm + payload, b.header))
  }

  /** `snapshot`: the bytes and the reference header, or an error when no header is held. */
  function Snapshot(b: BufferState): (r: Result<(seq<byte>, Header), SnapshotError>)
    ensures r.Failure? <==> b.header.None?
    ensures r.Success? ==> r.value == (b.pcm, b.header.value)
  {
    if b.header.None? then Failure(NoAudioBuffered) else Success((b.pcm, b.header.value))
  }

  /** A frame of the wire format: its header and the bytes that followed it. */
  datatype Frame = Frame(header: Header, payload: seq<byte>)

  function Payloads(frames: seq<Frame>): (r: seq<byte>)
  {
    if frames == [] then [] else Payloads(frames[..|frames| - 1]) + frames[|frames| - 1].payload
  }

  /** `append_frame` on each frame in turn, stopping at the first rejection. */
  function AppendAll(b: BufferState, frames: seq<Frame>): Result<BufferState, AppendError>
  {
    if frames == [] then Success(b)
    else
      match AppendAll(b, frames[..|frames| - 1])
      case Failure(e) => Failure(e)
      case Success(b') => AppendFrame(b', frames[|frames| - 1].header, frames[|frames| - 1].payload)
  }

  /** Every frame's payload_len is right and its format is that of `reference`. */
  predicate Uniform(frames: seq<Frame>, reference: Header) {
    forall i :: 0 <= i < |frames| ==>
      frames[i].header.payloadLen == |frames[i].payload| && SameFormat(reference, frames[i].header)
  }

  /**
   * Appending well-formed frames of one format to a fresh buffer and taking a snapshot
   * gives exactly the concatenated payloads and the first frame's header.
   */
  lemma {:induction false} AppendAllSnapshot(frames: seq<Frame>)
    requires frames != [] && Uniform(frames, frames[0].header)
    ensures AppendAll(Empty, frames).Success?
    ensures Snapshot(AppendAll(Empty, frames).value) == Success((Payloads(frames), frames[0].header))
  {
    var n := |frames|;
    if n == 1 {
      assert frames[..0] == [];
    } else {
      var init := frames[..n - 1];
      assert init[0] == frames[0];
      assert Uniform(init, init[0].header);
      AppendAllSnapshot(init);
    }
  }

  /** A rejected frame changes nothing; a frame differing only in sequence, length or flags is accepted. */
  lemma FormatCheck(b: BufferState, h: Header, payload: seq<byte>, h': Header)
    requires b.header.Some? && h.payloadLen == |payload| && SameFormat(b.header.value, h)
    requires h'.sampleRate != h.sampleRate || h'.channels != h.channels || h'.bitsPerSample != h.bitsPerSample
    ensures AppendFrame(b, h, payload).Success?
    ensures AppendFrame(b, h', payload).Failure?
  {
  }

  /**
   * The Python object, whose fields the methods update in place. `pcm` is the
   * `pcm_bytes` bytearray, `header` the reference header.
   */
  class AudioStreamBuffer {
    var pcm: seq<byte>
    var header: Option<Header>

    ghost predicate Valid()
      reads this
    {
      Consistent(State())
    }

    function State(): BufferState
      reads this
    {
      BufferState(pcm, header)
    }

    constructor ()
      ensures Valid() && State() == Empty
    {
      pcm := [];
      header := None;
    }

    method Append(h: Header, payload: seq<byte>) returns (r: Result<(), AppendError>)
      requires Valid()
      modifies this
      ensures Valid()
      ensures match AppendFrame(old(State()), h, payload)
              case Success(next) => r == Success(()) && State() == next
              case Failure(e) => r == Failure(e) && State() == old(State())
    {
      if h.payloadLen != |payload| {
        return Failure(PayloadLengthMismatch);
      }
      if header.None? {
        header := Some(h);
      } else {
        if h.sampleRate != header.value.sampleRate {
          return Failure(SampleRateChanged);
        }
        if h.channels != header.value.channels {
          return Failure(ChannelCountChanged);
        }
        if h.bitsPerSample != header.value.bitsPerSample {
          return Failure(BitDepthChanged);
        }
      }
      pcm := pcm + payload;
      r := Success(());
    }

    method TakeSnapshot() returns (r: Result<(seq<byte>, Header), SnapshotError>)
      ensures r == Snapshot(State())
    {
      if header.None? {
        return Failure(NoAudioBuffered);
      }
      r := Success((pcm, header.value));
    }

    method Clear()
      modifies this
      ensures Valid() && State() == Empty
    {
      pcm := [];
      header := None;
    }

    function IsEmpty(): bool
      reads this
    {
      |pcm| == 0
    }
  }
}
