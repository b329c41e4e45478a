/**
 * The audio-frame wire codec and the control-message envelope shared by the edge
 * service and its clients: a fixed 10-byte little-endian header (`struct` format
 * `<HHHBBH`) in front of every PCM frame, and a `{type, event, payload}` object for
 * every control message.
 */
module Protocol {
  import opened Wrappers
  import opened PyStr
  import opened JsonValue

  type byte = b: int | 0 <= b < 256

  const MSG_TYPE_AUDIO_CHUNK: string := "MSG_TYPE_AUDIO_CHUNK"
  const MSG_TYPE_TTS_CHUNK: string := "MSG_TYPE_TTS_CHUNK"
  const MSG_TYPE_CONTROL: string := "MSG_TYPE_CONTROL"

  /** Size of `<HHHBBH`: three unsigned shorts, two unsigned bytes, one unsigned short. */
  const HEADER_SIZE: nat := 2 + 2 + 2 + 1 + 1 + 2

  /** The frozen header dataclass. Its fields are Python ints, so any value can be put in. */
  datatype Header = Header(
    sequence: int,
    payloadLen: int,
    sampleRate: int,
    channels: int,
    bitsPerSample: int,
    flags: int := 0)

  predicate IsU16(x: int) { 0 <= x < 0x1_0000 }
  predicate IsU8(x: int) { 0 <= x < 0x100 }

  /** The fields that `struct.pack` accepts for `H` and `B`. */
  predicate Packable(h: Header) {
    IsU16(h.sequence) && IsU16(h.payloadLen) && IsU16(h.sampleRate)
    && IsU8(h.channels) && IsU8(h.bitsPerSample) && IsU16(h.flags)
  }

  /**
   * `struct.error`. Python's message names only the format that was violated; `field`, the
   * first argument (in packing order) that does not fit, is this model's own label for it.
   */
  datatype PackError = StructError(field: string)

  /** The ValueError `from_bytes` raises on short input, with the two counts it reports. */
  datatype DecodeError = IncompleteHeader(expected: nat, got: nat)

  function DecodeErrorMessage(e: DecodeError): string {
    "Incomplete audio header: expected " + NatToString(e.expected) + " bytes, got " + NatToString(e.got)
  }

  /** The little-endian unsigned short stored at `data[at..at + 2]`. */
  function U16At(data: seq<byte>, at: nat): int
    requires at + 2 <= |data|
  {
    data[at] as int + 0x100 * (data[at + 1] as int)
  }

  function LittleEndian16(x: int): (r: seq<byte>)
    requires IsU16(x)
    ensures |r| == 2 && U16At(r, 0) == x
  {
    [x % 0x100, x / 0x100]
  }

  function FirstUnpackable(h: Header): string
    requires !Packable(h)
  {
    if !IsU16(h.sequence) then "sequence"
    else if !IsU16(h.payloadLen) then "payload_len"
    else if !IsU16(h.sampleRate) then "sample_rate"
    else if !IsU8(h.channels) then "channels"
    else if !IsU8(h.bitsPerSample) then "bits_per_sample"
    else "flags"
  }

  /**
   * `AudioFrameHeader.to_bytes`. It succeeds exactly for headers whose fields fit their
   * formats, always with HEADER_SIZE bytes laid out in field order, little-endian.
   */
  function Pack(h: Header): (r: Result<seq<byte>, PackError>)
    ensures r.Success? <==> Packable(h)
    ensures r.Success? ==> |r.value| == HEADER_SIZE
    ensures r.Success? ==>
      && U16At(r.value, 0) == h.sequence
      && U16At(r.value, 2) == h.payloadLen
      && U16At(r.value, 4) == h.sampleRate
      && r.value[6] == h.channels
      && r.value[7] == h.bitsPerSample
      && U16At(r.value, 8) == h.flags
  {
    if Packable(h) then
      var b := LittleEndian16(h.sequence) + LittleEndian16(h.payloadLen) + LittleEndian16(h.sampleRate)
               + [h.channels, h.bitsPerSample] + LittleEndian16(h.flags);
      assert U16At(b, 2) == U16At(LittleEndian16(h.payloadLen), 0);
      assert U16At(b, 4) == U16At(LittleEndian16(h.sampleRate), 0);
      assert U16At(b, 8) == U16At(LittleEndian16(h.flags), 0);
      Success(b)
    else
      Failure(StructError(FirstUnpackable(h)))
  }

  /**
   * `AudioFrameHeader.from_bytes`. Input shorter than the header is an error carrying
   * the expected and the actual length; otherwise only the first HEADER_SIZE bytes are read.
   */
  function Unpack(data: seq<byte>): (r: Result<Header, DecodeError>)
    ensures r.Failure? <==> |data| < HEADER_SIZE
    ensures r.Failure? ==> r.error == IncompleteHeader(HEADER_SIZE, |data|)
    ensures r.Success? ==> Packable(r.value)
  {
    if |data| < HEADER_SIZE then
      Failure(IncompleteHeader(HEADER_SIZE, |data|))
    else
      Success(Header(U16At(data, 0), U16At(data, 2), U16At(data, 4), data[6], data[7], U16At(data, 8)))
  }

  /** Decoding an encoded header gives it back, whatever payload follows it. */
  lemma PackUnpack(h: Header, payload: seq<byte>)
    requires Packable(h)
    ensures Unpack(Pack(h).value + payload) == Success(h)
  {
    var b := Pack(h).value;
    var data := b + payload;
    assert data[..HEADER_SIZE] == b;
    assert U16At(data, 0) == U16At(b, 0) && U16At(data, 2) == U16At(b, 2);
    assert U16At(data, 4) == U16At(b, 4) && U16At(data, 8) == U16At(b, 8);
  }

  /** Two bytes read as a little-endian short and written back are the same two bytes. */
  lemma U16Bytes(data: seq<byte>, at: nat)
    requires at + 2 <= |data|
    ensures LittleEndian16(U16At(data, at)) == data[at..at + 2]
  {
    var x := U16At(data, at);
    assert x % 0x100 == data[at];
    assert x / 0x100 == data[at + 1];
  }

  /** Encoding a decoded header gives back the header bytes it was read from. */
  lemma UnpackPack(data: seq<byte>)
    requires |data| >= HEADER_SIZE
    ensures Pack(Unpack(data).value) == Success(data[..HEADER_SIZE])
  {
    U16Bytes(data, 0);
    U16Bytes(data, 2);
    U16Bytes(data, 4);
    U16Bytes(data, 8);
    assert data[..HEADER_SIZE] == data[0..2] + data[2..4] + data[4..6] + [data[6], data[7]] + data[8..10];
  }

  /** A header built without naming `flags` has `flags == 0`. */
  lemma FlagsDefault(sequence: int, payloadLen: int, sampleRate: int, channels: int, bitsPerSample: int)
    ensures Header(sequence, payloadLen, sampleRate, channels, bitsPerSample).flags == 0
  {
  }

  /**
   * `encode_control_message(event, payload)`: an object with exactly the keys
   * "type", "event" and "payload". The JSON text it is dumped to is not modelled.
   */
  function EncodeControl(event: string, payload: Json): (r: Json)
    ensures r.JObj? && r.fields.Keys == {"type", "event", "payload"}
  {
    JObj(map["type" := JStr(MSG_TYPE_CONTROL), "event" := JStr(event), "payload" := payload])
  }

  /** A receiver reading the envelope with `.get` recovers the discriminator, the event and the payload. */
  lemma ControlRoundTrip(event: string, payload: Json)
    ensures Get(EncodeControl(event, payload), "type") == Success(JStr(MSG_TYPE_CONTROL))
    ensures Get(EncodeControl(event, payload), "event") == Success(JStr(event))
    ensures Get(EncodeControl(event, payload), "payload") == Success(payload)
  {
  }
}
