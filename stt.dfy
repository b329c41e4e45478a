/**
 * The checks and the text handling around speech recognition (`transcribe_audio`,
 * `_pcm16_mono_to_float32`, `_collect_text`). The Whisper model is a function from the
 * decoded 16-bit samples to the texts of the segments it recognises; the int16 to
 * float32 scaling is not modelled.
 */
module Stt {
  import opened Wrappers
  import opened PyStr
  import opened Protocol

  const WHISPER_SAMPLE_RATE: int := 16000

  /** The ValueErrors of recognition, in the order they are checked. */
  datatype SttError =
    | WrongSampleRate(rate: int)
    | UnsupportedBitDepth(bits: int)
    | NotMono(channels: int)
    | MisalignedPayload

  function SttErrorMessage(e: SttError): string {
    match e
    case WrongSampleRate(rate) => "Whisper expects 16000 Hz audio, got " + IntToString(rate)
    case UnsupportedBitDepth(bits) => "Only 16-bit PCM supported, got " + IntToString(bits)
    case NotMono(channels) => "Only mono audio supported, got " + IntToString(channels) + " channels"
    case MisalignedPayload => "PCM payload size must be aligned to 16-bit samples"
  }

  /** The signed little-endian 16-bit sample at `pcm[at..at + 2]`. */
  function Int16At(pcm: seq<byte>, at: nat): (r: int)
    requires at + 2 <= |pcm|
    ensures -0x8000 <= r < 0x8000
  {
    var u := U16At(pcm, at);
    if u >= 0x8000 then u - 0x1_0000 else u
  }

  /** `np.frombuffer(pcm, dtype=np.int16)` on a little-endian host. */
  function Int16Samples(pcm: seq<byte>): (r: seq<int>)
    requires |pcm| % 2 == 0
    ensures |r| == |pcm| / 2
    ensures forall i :: 0 <= i < |r| ==> r[i] == Int16At(pcm, 2 * i)
    decreases |pcm|
  {
    if pcm == [] then []
    else
      var rest := Int16Samples(pcm[2..]);
      assert forall i :: 0 <= i < |rest| ==> Int16At(pcm[2..], 2 * i) == Int16At(pcm, 2 * (i + 1));
      [Int16At(pcm, 0)] + rest
  }

  /**
   * The validation of `_pcm16_mono_to_float32`: bit depth first, then channel count,
   * then an even byte count; accepted PCM gives one sample per two bytes.
   */
  function Pcm16MonoSamples(pcm: seq<byte>, h: Header): (r: Result<seq<int>, SttError>)
    ensures h.bitsPerSample != 16 ==> r == Failure(UnsupportedBitDepth(h.bitsPerSample))
    ensures h.bitsPerSample == 16 && h.channels != 1 ==> r == Failure(NotMono(h.channels))
    ensures h.bitsPerSample == 16 && h.channels == 1 && |pcm| % 2 != 0 ==> r == Failure(MisalignedPayload)
    ensures r.Success? <==> h.bitsPerSample == 16 && h.channels == 1 && |pcm| % 2 == 0
    ensures r.Success? ==> |r.value| == |pcm| / 2
  {
    if h.bitsPerSample != 16 then Failure(UnsupportedBitDepth(h.bitsPerSample))
    else if h.channels != 1 then Failure(NotMono(h.channels))
    else if |pcm| % 2 != 0 then Failure(MisalignedPayload)
    else Success(Int16Samples(pcm))
  }

  /** A non-empty text with no whitespace at either end. */
  predicate Trimmed(t: string) {
    t != "" && !IsSpace(t[0]) && !IsSpace(t[|t| - 1])
  }

  /** The `texts` list `_collect_text` builds: each segment text stripped, empty ones dropped. */
  function Kept(segments: seq<string>): (r: seq<string>)
    ensures forall k :: 0 <= k < |r| ==> Trimmed(r[k])
    ensures |r| <= |segments|
  {
    if segments == [] then []
    else
      var kept := Kept(segments[..|segments| - 1]);
      var t := Strip(segments[|segments| - 1]);
      if t != "" then
        assert Trimmed(t);
        kept + [t]
      else kept
  }

  /** `" ".join(parts)`. */
  function JoinSpace(parts: seq<string>): string {
    if parts == [] then ""
    else if |parts| == 1 then parts[0]
    else JoinSpace(parts[..|parts| - 1]) + " " + parts[|parts| - 1]
  }

  /** `_collect_text`: the loop that strips and keeps segment texts, then the join. */
  method CollectText(segments: seq<string>) returns (text: string)
    ensures text == JoinSpace(Kept(segments))
  {
    var texts: seq<string> := [];
    for i := 0 to |segments|
      invariant texts == Kept(segments[..i])
    {
      assert segments[..i + 1][..i] == segments[..i];
      var t := Strip(segments[i]);
      if t != "" {
        texts := texts + [t];
      }
    }
    assert segments[..|segments|] == segments;
    text := if texts != [] then JoinSpace(texts) else "";
  }

  /** Joining trimmed parts with single spaces gives a trimmed text; joining none gives "". */
  lemma {:induction false} JoinSpaceTrimmed(parts: seq<string>)
    requires forall k :: 0 <= k < |parts| ==> Trimmed(parts[k])
    ensures parts == [] ==> JoinSpace(parts) == ""
    ensures parts != [] ==> Trimmed(JoinSpace(parts))
  {
    if |parts| > 1 {
      var init := parts[..|parts| - 1];
      var last := parts[|parts| - 1];
      JoinSpaceTrimmed(init);
      var joined := JoinSpace(init) + " " + last;
      assert Trimmed(last);
      assert joined[0] == JoinSpace(init)[0];
      assert joined[|joined| - 1] == last[|last| - 1];
    }
  }

  /** A segment text with nothing but whitespace. */
  predicate Blank(t: string) {
    Strip(t) == ""
  }

  /**
   * The collected transcript has no leading or trailing whitespace, and it is empty
   * exactly when every segment text is blank.
   */
  lemma CollectedTextTrimmed(segments: seq<string>)
    ensures var text := JoinSpace(Kept(segments));
      text != "" ==> !IsSpace(text[0]) && !IsSpace(text[|text| - 1])
    ensures JoinSpace(Kept(segments)) == "" <==> forall i :: 0 <= i < |segments| ==> Blank(segments[i])
  {
    JoinSpaceTrimmed(Kept(segments));
    KeptEmpty(segments);
  }

  lemma {:induction false} KeptEmpty(segments: seq<string>)
    ensures Kept(segments) == [] <==> forall i :: 0 <= i < |segments| ==> Blank(segments[i])
  {
    if segments != [] {
      var init := segments[..|segments| - 1];
      KeptEmpty(init);
      assert forall i :: 0 <= i < |init| ==> init[i] == segments[i];
      assert Kept(segments) == [] <==> Kept(init) == [] && Blank(segments[|segments| - 1]);
    }
  }

  /**
   * `transcribe_audio`. Empty PCM gives "" before any check; otherwise the sample rate
   * must be 16000, then the sample format must be accepted, and the model's segments
   * are collected into the transcript.
   */
  method TranscribeAudio(pcm: seq<byte>, h: Header, whisper: seq<int> -> seq<string>) returns (r: Result<string, SttError>)
    ensures pcm == [] ==> r == Success("")
    ensures pcm != [] && h.sampleRate != WHISPER_SAMPLE_RATE ==> r == Failure(WrongSampleRate(h.sampleRate))
    ensures pcm != [] && h.sampleRate == WHISPER_SAMPLE_RATE ==>
      match Pcm16MonoSamples(pcm, h)
      case Failure(e) => r == Failure(e)
      case Success(samples) => r == Success(JoinSpace(Kept(whisper(samples))))
  {
    if pcm == [] {
      return Success("");
    }
    if h.sampleRate != WHISPER_SAMPLE_RATE {
      return Failure(WrongSampleRate(h.sampleRate));
    }
    var audio := Pcm16MonoSamples(pcm, h);
    if audio.Failure? {
      return Failure(audio.error);
    }
    var transcript := CollectText(whisper(audio.value));
    r := Success(transcript);
  }
}
