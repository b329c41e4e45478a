/**
 * What the `/ws/audio` session guarantees across messages: the invariants every turn
 * of the receive loop keeps, how a frame off the wire and each control event are
 * handled, and what the pipeline reports when a collaborator fails.
 */
module SessionProps {
  import opened Wrappers
  import opened PyStr
  import opened JsonValue
  import opened Protocol
  import opened AudioBuffer
  import opened Timing
  import opened Session

  /** The history is whole exchanges: a user turn, then the assistant's reply, and so on. */
  predicate Alternating(history: seq<Turn>) {
    && |history| % 2 == 0
    && forall i :: 0 <= i < |history| ==> history[i].role == (if i % 2 == 0 then User else Assistant)
  }

  /** What every reachable session state satisfies. */
  predicate Invariant(s: SessionState) {
    Consistent(s.buffer) && Alternating(s.history)
  }

  /**
   * `t` follows from `s` by one message at most: the history, the messages sent and
   * the calls made only grew at their ends, by at most one exchange, two messages and
   * three calls.
   */
  predicate Grows(s: SessionState, t: SessionState) {
    && s.history <= t.history && s.outbox <= t.outbox && s.calls <= t.calls
    && (|t.history| == |s.history| || |t.history| == |s.history| + 2)
    && |t.outbox| <= |s.outbox| + 2
    && |t.calls| <= |s.calls| + 3
  }

  /** Only the messages `ms` were sent; nothing else changed. */
  function Sent(s: SessionState, ms: seq<Outbound>): SessionState {
    s.(outbox := s.outbox + ms)
  }

  lemma ExchangeAlternating(history: seq<Turn>, transcript: string, reply: string)
    requires Alternating(history)
    ensures Alternating(Exchange(history, transcript, reply))
  {
    var h := Exchange(history, transcript, reply);
    var n := |history|;
    forall i | 0 <= i < |h|
      ensures h[i].role == (if i % 2 == 0 then User else Assistant)
    {
      if i < n {
        assert h[i] == history[i];
      } else if i == n {
        assert h[i] == Turn(User, transcript);
      } else {
        assert h[i] == Turn(Assistant, reply);
      }
    }
  }

  /** The state right after `accept` satisfies the invariant. */
  lemma ConnectedInvariant()
    ensures Invariant(Connected) && Connected.status.Open?
    ensures |Connected.outbox| == 1 && IsEvent(Connected.outbox[0], "connected")
  {
    ControlRoundTrip("connected", JObj(map["note" := JStr("placeholder session")]));
  }

  lemma BinaryStepKeeps(s: SessionState, raw: seq<byte>)
    requires Invariant(s)
    ensures var t := BinaryStep(s, raw);
      Invariant(t) && Grows(s, t) && t.history == s.history && t.calls == s.calls && t.status == s.status
  {
  }

  lemma FlushStepKeeps(s: SessionState, w: Collaborators)
    requires Invariant(s)
    ensures Invariant(FlushStep(s, w)) && Grows(s, FlushStep(s, w))
  {
    var t := FlushStep(s, w);
    if |s.buffer.pcm| != 0 {
      var pcm, h := s.buffer.pcm, s.buffer.header.value;
      match w.recognize(pcm, h)
      case Failure(e) =>
      case Success(transcript) =>
        match w.generate(transcript, s.history)
        case Failure(e) =>
        case Success(reply) =>
          match w.synthesize(reply)
          case Failure(e) =>
          case Success(audio) =>
            ExchangeAlternating(s.history, transcript, reply);
    }
  }

  lemma TextTurnStepFrame(s: SessionState, text: string, skip: bool, w: Collaborators)
    ensures var t := TextTurnStep(s, text, skip, w);
      t.buffer == s.buffer && t.status == s.status && |t.outbox| > |s.outbox|
  {
  }

  lemma TextTurnStepKeeps(s: SessionState, text: string, skip: bool, w: Collaborators)
    requires Invariant(s)
    ensures var t := TextTurnStep(s, text, skip, w);
      Invariant(t) && Grows(s, t) && t.buffer == s.buffer && t.status == s.status && |t.outbox| > |s.outbox|
  {
    match w.generate(text, s.history)
    case Failure(e) =>
    case Success(reply) => ExchangeAlternating(s.history, text, reply);
  }

  /** The checks on a text payload: either one error is sent, or the turn itself runs on the stripped text. */
  lemma TextInputCases(s: SessionState, payload: Json, w: Collaborators)
    ensures var t := TextInputStep(s, payload, w);
      || (exists m :: t == Sent(s, [m]))
      || (exists text, skip :: t == TextTurnStep(s, text, skip, w))
  {
    var t := TextInputStep(s, payload, w);
    if payload.JObj? {
      var given := Get(payload, "text").value;
      var text0 := if Truthy(given) then given else JStr("");
      if text0.JStr? && Strip(text0.s) != "" {
        var skip := Truthy(Get(payload, "skip_tts").value);
        assert t == TextTurnStep(s, Strip(text0.s), skip, w);
      } else if text0.JStr? {
        assert t == Sent(s, [Control("error", map["detail" := JStr("empty text input")])]);
      } else {
        assert t == Sent(s, [InputFailed(Raised(OtherError, NoAttribute(text0, "strip")))]);
      }
    } else {
      assert t == Sent(s, [InputFailed(Raised(OtherError, NoAttribute(payload, "get")))]);
    }
  }

  lemma TextInputStepKeeps(s: SessionState, payload: Json, w: Collaborators)
    requires Invariant(s)
    ensures var t := TextInputStep(s, payload, w);
      Invariant(t) && Grows(s, t) && t.buffer == s.buffer && t.status == s.status && |t.outbox| > |s.outbox|
  {
    var t := TextInputStep(s, payload, w);
    TextInputCases(s, payload, w);
    if exists text, skip :: t == TextTurnStep(s, text, skip, w) {
      var text, skip :| t == TextTurnStep(s, text, skip, w);
      TextTurnStepKeeps(s, text, skip, w);
    }
  }

  /**
   * Every turn of the receive loop keeps the buffer invariant and whole exchanges in
   * the history, and only appends to the history, the messages sent and the calls.
   */
  lemma StepKeeps(s: SessionState, m: Inbound, w: Collaborators)
    requires Invariant(s)
    ensures Invariant(Step(s, m, w)) && Grows(s, Step(s, m, w))
  {
    if s.status.Open? && m.Message? {
      if m.bytes.Some? {
        BinaryStepKeeps(s, m.bytes.value);
      } else if m.text.Some? {
        var f := m.text.value;
        if f.decoded.Some? && Get(f.decoded.value, "type") == Success(JStr(MSG_TYPE_CONTROL)) {
          var control := f.decoded.value;
          var event := Get(control, "event").value;
          if event == JStr("speech_end") {
            FlushStepKeeps(s, w);
          } else if event == JStr("text_input") {
            var given := Get(control, "payload").value;
            TextInputStepKeeps(s, if Truthy(given) then given else JObj(map[]), w);
          }
        }
      }
    }
  }

  /**
   * Over any sequence of messages the invariant holds, the logs only grow, and at
   * most two messages are sent per message received.
   */
  lemma {:induction false} RunKeeps(s: SessionState, inbox: seq<Arrival>)
    requires Invariant(s)
    ensures var t := Run(s, inbox);
      && Invariant(t)
      && s.history <= t.history && s.outbox <= t.outbox && s.calls <= t.calls
      && |t.outbox| <= |s.outbox| + 2 * |inbox|
  {
    if inbox != [] {
      var init := inbox[..|inbox| - 1];
      var last := inbox[|inbox| - 1];
      RunKeeps(s, init);
      StepKeeps(Run(s, init), last.message, last.services);
    }
  }

  /** A session that has left its receive loop ignores all further messages. */
  lemma {:induction false} ClosedIgnores(s: SessionState, inbox: seq<Arrival>)
    requires !s.status.Open?
    ensures Run(s, inbox) == s
  {
    if inbox != [] {
      ClosedIgnores(s, inbox[..|inbox| - 1]);
    }
  }

  /** Handling one batch of messages and then another is handling them all in order. */
  lemma {:induction false} RunAppend(s: SessionState, a: seq<Arrival>, b: seq<Arrival>)
    ensures Run(s, a + b) == Run(Run(s, a), b)
  {
    if b == [] {
      assert a + b == a;
    } else {
      var init := b[..|b| - 1];
      assert (a + b)[..|a + b| - 1] == a + init;
      RunAppend(s, a, init);
    }
  }

  /** A binary message shorter than a header: an error with the received size, and the buffer is kept. */
  lemma ShortFrameReported(s: SessionState, raw: seq<byte>, text: Option<TextFrame>, w: Collaborators)
    requires s.status.Open? && |raw| < HEADER_SIZE
    ensures Step(s, Message(Some(raw), text), w) == Sent(s, [Control("error", map[
      "detail" := JStr(DecodeErrorMessage(IncompleteHeader(HEADER_SIZE, |raw|))),
      "received_bytes" := JInt(|raw|)])])
  {
    assert Step(s, Message(Some(raw), text), w) == BinaryStep(s, raw);
    assert Unpack(raw) == Failure(IncompleteHeader(HEADER_SIZE, |raw|));
  }

  /**
   * A packed header followed by exactly `payload_len` bytes of the buffer's format (or
   * any format when nothing is buffered) is appended silently: the header becomes the
   * reference unless one is already held.
   */
  lemma WireFrameAccepted(s: SessionState, h: Header, payload: seq<byte>, text: Option<TextFrame>, w: Collaborators)
    requires s.status.Open? && Packable(h) && |payload| == h.payloadLen
    requires s.buffer.header.None? || SameFormat(s.buffer.header.value, h)
    ensures Step(s, Message(Some(Pack(h).value + payload), text), w) ==
      s.(buffer := BufferState(s.buffer.pcm + payload, Some(if s.buffer.header.None? then h else s.buffer.header.value)))
  {
    PackUnpack(h, payload);
    assert (Pack(h).value + payload)[HEADER_SIZE..] == payload;
  }

  /** Trailing bytes that disagree with `payload_len` are reported with both lengths; the buffer is kept. */
  lemma WireFrameLengthMismatch(s: SessionState, h: Header, payload: seq<byte>, text: Option<TextFrame>, w: Collaborators)
    requires s.status.Open? && Packable(h) && |payload| != h.payloadLen
    ensures Step(s, Message(Some(Pack(h).value + payload), text), w) == Sent(s, [Control("error", map[
      "detail" := JStr("audio payload length mismatch"),
      "header_payload_len" := JInt(h.payloadLen),
      "actual_payload_len" := JInt(|payload|)])])
  {
    PackUnpack(h, payload);
    assert (Pack(h).value + payload)[HEADER_SIZE..] == payload;
  }

  /**
   * A well-sized frame whose format differs from the reference header empties the
   * buffer and is reported with the first field that differs (sample rate, then
   * channels, then bit depth) and the frame's header fields.
   */
  lemma FormatChangeResets(s: SessionState, h: Header, payload: seq<byte>, text: Option<TextFrame>, w: Collaborators)
    requires s.status.Open? && Packable(h) && |payload| == h.payloadLen
    requires s.buffer.header.Some? && !SameFormat(s.buffer.header.value, h)
    ensures var reference := s.buffer.header.value;
      var e := if h.sampleRate != reference.sampleRate then SampleRateChanged
        else if h.channels != reference.channels then ChannelCountChanged
        else BitDepthChanged;
      Step(s, Message(Some(Pack(h).value + payload), text), w) ==
        Sent(s.(buffer := Empty), [Control("error", RejectDetail(e, h))])
  {
    PackUnpack(h, payload);
    assert (Pack(h).value + payload)[HEADER_SIZE..] == payload;
  }

  /** The text message holding `encode_control_message(event, payload)`, as the handler receives it. */
  function ControlText(raw: string, event: string, payload: Json): Inbound {
    Message(None, Some(TextFrame(raw, Some(EncodeControl(event, payload)))))
  }

  /** A control message reaches the handler of its event; an unknown event is acknowledged by name. */
  lemma ControlDispatch(s: SessionState, raw: string, event: string, payload: Json, w: Collaborators)
    requires s.status.Open?
    ensures Step(s, ControlText(raw, event, payload), w) ==
      if event == "speech_end" then FlushStep(s, w)
      else if event == "reset_buffer" then
        Sent(s.(buffer := Empty), [Control("ack", map["event" := JStr("reset_buffer")])])
      else if event == "text_input" then TextInputStep(s, if Truthy(payload) then payload else JObj(map[]), w)
      else Sent(s, [Control("ack", map["event" := JStr(event)])])
  {
    ControlRoundTrip(event, payload);
  }

  /**
   * Text that is not JSON, or JSON without the control type, is echoed back; a JSON
   * value that is not an object leaves the session with the AttributeError of `.get`.
   */
  lemma NonControlText(s: SessionState, raw: string, decoded: Option<Json>, w: Collaborators)
    requires s.status.Open?
    ensures decoded.None? ==>
      Step(s, Message(None, Some(TextFrame(raw, decoded))), w) == Sent(s, [Control("ack", map["echo" := JStr(raw)])])
    ensures decoded.Some? && decoded.value.JObj? && Get(decoded.value, "type").value != JStr(MSG_TYPE_CONTROL) ==>
      Step(s, Message(None, Some(TextFrame(raw, decoded))), w) == Sent(s, [Control("ack", map["echo" := JStr(raw)])])
    ensures decoded.Some? && !decoded.value.JObj? ==>
      Step(s, Message(None, Some(TextFrame(raw, decoded))), w) ==
        s.(status := Aborted(Raised(OtherError, NoAttribute(decoded.value, "get"))))
  {
  }

  /** Without buffered bytes `speech_end` only sends `noop`: no call is made and the buffer, header included, is kept. */
  lemma SpeechEndWithoutAudio(s: SessionState, w: Collaborators)
    requires s.buffer.pcm == []
    ensures FlushStep(s, w) == Sent(s, [Control("noop", map["detail" := JStr("no audio buffered")])])
  {
  }

  /**
   * A ValueError of the recogniser is reported with its message and empties the
   * buffer; the history is kept and the session goes on.
   */
  lemma RecognizerValueError(s: SessionState, w: Collaborators)
    requires Consistent(s.buffer) && s.buffer.pcm != []
    requires var r := w.recognize(s.buffer.pcm, s.buffer.header.value); r.Failure? && r.error.kind == ValueError
    ensures var e := w.recognize(s.buffer.pcm, s.buffer.header.value).error;
      FlushStep(s, w) == Sent(s.(buffer := Empty, calls := s.calls + [Recognize(s.buffer.pcm, s.buffer.header.value)]),
        [Control("error", map["detail" := JStr(e.detail)])])
  {
  }

  /**
   * Any other exception of the recogniser, and any exception of the reply generator or
   * the synthesiser, leaves the session with that exception: nothing is sent, the
   * buffer and the history are kept.
   */
  lemma PipelineFailureAborts(s: SessionState, w: Collaborators)
    requires Consistent(s.buffer) && s.buffer.pcm != []
    ensures var pcm, h := s.buffer.pcm, s.buffer.header.value;
      var r := w.recognize(pcm, h);
      r.Failure? && r.error.kind != ValueError ==>
        FlushStep(s, w) == s.(calls := s.calls + [Recognize(pcm, h)], status := Aborted(r.error))
    ensures var pcm, h := s.buffer.pcm, s.buffer.header.value;
      var r := w.recognize(pcm, h);
      r.Success? && w.generate(r.value, s.history).Failure? ==>
        FlushStep(s, w) == s.(calls := s.calls + [Recognize(pcm, h), Generate(r.value, s.history)],
          status := Aborted(w.generate(r.value, s.history).error))
    ensures var pcm, h := s.buffer.pcm, s.buffer.header.value;
      var r := w.recognize(pcm, h);
      r.Success? && w.generate(r.value, s.history).Success? && w.synthesize(w.generate(r.value, s.history).value).Failure? ==>
        var reply := w.generate(r.value, s.history).value;
        FlushStep(s, w) == s.(calls := s.calls + [Recognize(pcm, h), Generate(r.value, s.history), Synthesize(reply)],
          status := Aborted(w.synthesize(reply).error))
  {
  }

  /** With bytes buffered, the first call of `speech_end` is the recogniser's, on the snapshot. */
  lemma FlushCallsRecognizerFirst(s: SessionState, w: Collaborators)
    requires Consistent(s.buffer) && s.buffer.pcm != []
    ensures var t := FlushStep(s, w);
      |t.calls| > |s.calls| && t.calls[..|s.calls|] == s.calls
      && t.calls[|s.calls|] == Recognize(s.buffer.pcm, s.buffer.header.value)
  {
    var pcm, h := s.buffer.pcm, s.buffer.header.value;
    var t := FlushStep(s, w);
    assert exists more :: t.calls == s.calls + [Recognize(pcm, h)] + more by {
      match w.recognize(pcm, h)
      case Failure(e) =>
        assert t.calls == s.calls + [Recognize(pcm, h)] + [];
      case Success(transcript) =>
        match w.generate(transcript, s.history)
        case Failure(e) =>
          assert t.calls == s.calls + [Recognize(pcm, h)] + [Generate(transcript, s.history)];
        case Success(reply) =>
          assert t.calls == s.calls + [Recognize(pcm, h)] + [Generate(transcript, s.history), Synthesize(reply)];
    }
  }

  /**
   * A spoken turn that goes through: the recogniser gets the buffered bytes and the
   * reference header, the generator the transcript and the history before the turn;
   * the exchange is recorded, `transcription_ready` and then the synthesised audio are
   * sent, and the buffer is emptied.
   */
  lemma FlushSucceeds(s: SessionState, w: Collaborators, transcript: string, reply: string, audio: seq<byte>)
    requires Consistent(s.buffer) && s.buffer.pcm != []
    requires w.recognize(s.buffer.pcm, s.buffer.header.value) == Success(transcript)
    requires w.generate(transcript, s.history) == Success(reply)
    requires w.synthesize(reply) == Success(audio)
    ensures var pcm, h := s.buffer.pcm, s.buffer.header.value;
      var t := FlushStep(s, w);
      && t.buffer == Empty && t.status == s.status
      && t.history == s.history + [Turn(User, transcript), Turn(Assistant, reply)]
      && t.calls == s.calls + [Recognize(pcm, h), Generate(transcript, s.history), Synthesize(reply)]
      && |t.outbox| == |s.outbox| + 2 && t.outbox[..|s.outbox|] == s.outbox
      && IsEvent(t.outbox[|s.outbox|], "transcription_ready")
      && Payload(t.outbox[|s.outbox|]) == JObj(ReadyDetail(h, |pcm|, transcript, reply))
      && t.outbox[|s.outbox| + 1] == SendBytes(audio)
  {
    var pcm, h := s.buffer.pcm, s.buffer.header.value;
    var ready := Control("transcription_ready", ReadyDetail(h, |pcm|, transcript, reply));
    ControlRoundTrip("transcription_ready", JObj(ReadyDetail(h, |pcm|, transcript, reply)));
    var t := FlushStep(s, w);
    assert t.outbox == s.outbox + [ready, SendBytes(audio)];
  }

  /**
   * A frame of no payload bytes from a fresh session is accepted: it sets the reference
   * header but buffers nothing, so `speech_end` afterwards only sends `noop` and the
   * header stays; a later frame of another format is then rejected and empties the buffer.
   */
  lemma ZeroLengthFrameKeepsHeader(h: Header, h': Header, payload: seq<byte>, raw: string, w: Collaborators)
    requires Packable(h) && h.payloadLen == 0
    requires Packable(h') && h'.payloadLen == |payload| && !SameFormat(h, h')
    ensures var s1 := Step(Connected, Message(Some(Pack(h).value), None), w);
      var s2 := Step(s1, ControlText(raw, "speech_end", JObj(map[])), w);
      && s1 == Connected.(buffer := BufferState([], Some(h)))
      && s2 == Sent(s1, [Control("noop", map["detail" := JStr("no audio buffered")])])
      && Step(s2, Message(Some(Pack(h').value + payload), None), w).buffer == Empty
  {
    assert Pack(h).value + [] == Pack(h).value;
    WireFrameAccepted(Connected, h, [], None, w);
    var s1 := Step(Connected, Message(Some(Pack(h).value), None), w);
    ControlDispatch(s1, raw, "speech_end", JObj(map[]), w);
    var s2 := Step(s1, ControlText(raw, "speech_end", JObj(map[])), w);
    FormatChangeResets(s2, h', payload, None, w);
  }

  /** The timings of a text turn: the reply's time, the synthesis time unless skipped, and their sum from the timer's creation. */
  lemma TextTimingsMetrics(c: Readings, skip: bool)
    ensures Metrics(TextTimings(c, skip)) ==
      if skip then map["llm_ms" := c.afterLlm - c.start, "total_ms" := c.afterLlm - c.start]
      else map["llm_ms" := c.afterLlm - c.start, "tts_ms" := c.afterTts - c.afterLlm, "total_ms" := c.afterTts - c.start]
  {
    assert MetricKey("llm") == "llm_ms" && MetricKey("tts") == "tts_ms";
    var llm := Sample("llm", c.afterLlm - c.start);
    assert Entries([llm]) == map["llm_ms" := c.afterLlm - c.start] by {
      assert [llm][..0] == [];
    }
    assert Total([llm]) == c.afterLlm - c.start by {
      assert [llm][..0] == [];
    }
    if !skip {
      var tts := Sample("tts", c.afterTts - c.afterLlm);
      assert TextTimings(c, skip) == [llm, tts];
      assert [llm, tts][..1] == [llm];
      assert Entries([llm, tts]) == Entries([llm])["tts_ms" := c.afterTts - c.afterLlm];
      assert Total([llm, tts]) == Total([llm]) + c.afterTts - c.afterLlm;
    } else {
      assert TextTimings(c, skip) == [llm];
    }
  }

  /**
   * A text turn's exceptions, from the payload checks, the generator or the
   * synthesiser, are all reported: a text turn never leaves the session and never
   * touches the buffer.
   */
  lemma TextInputNeverAborts(s: SessionState, payload: Json, w: Collaborators)
    ensures TextInputStep(s, payload, w).status == s.status
    ensures TextInputStep(s, payload, w).buffer == s.buffer
    ensures |TextInputStep(s, payload, w).outbox| > |s.outbox|
  {
    var t := TextInputStep(s, payload, w);
    TextInputCases(s, payload, w);
    if exists text, skip :: t == TextTurnStep(s, text, skip, w) {
      var text, skip :| t == TextTurnStep(s, text, skip, w);
      TextTurnStepFrame(s, text, skip, w);
    }
  }

  /** Missing, falsy or blank text is refused before anything is called. */
  lemma BlankTextRefused(s: SessionState, fields: map<string, Json>, w: Collaborators)
    requires "text" !in fields || !Truthy(fields["text"]) || (fields["text"].JStr? && Strip(fields["text"].s) == "")
    ensures TextInputStep(s, JObj(fields), w) == Sent(s, [Control("error", map["detail" := JStr("empty text input")])])
  {
    var given := Get(JObj(fields), "text").value;
    if !Truthy(given) {
      assert Strip("") == "";
    }
  }

  /** A payload whose text is a non-blank string starts the turn on the stripped text; `skip_tts` counts by truthiness. */
  lemma TextPayloadTurn(s: SessionState, fields: map<string, Json>, w: Collaborators)
    requires "text" in fields && fields["text"].JStr? && Strip(fields["text"].s) != ""
    ensures TextInputStep(s, JObj(fields), w) ==
      TextTurnStep(s, Strip(fields["text"].s), "skip_tts" in fields && Truthy(fields["skip_tts"]), w)
  {
    var text := fields["text"].s;
    var payload := JObj(fields);
    assert Get(payload, "text") == Success(JStr(text));
    var given := Get(payload, "text").value;
    assert Truthy(given);
    var text0 := if Truthy(given) then given else JStr("");
    assert text0 == JStr(text);
    var skip := "skip_tts" in fields && Truthy(fields["skip_tts"]);
    assert Truthy(Get(payload, "skip_tts").value) == skip;
    var t := TextTurnStep(s, Strip(text), skip, w);
    assert TextInputStep(s, payload, w) == t;
  }

  /**
   * A text turn with `skip_tts` set: the generator gets the text and the history,
   * nothing is synthesised, and `transcription_ready` carries a null header, zero
   * payload bytes and the reply time as the only stage; no audio follows.
   */
  lemma SkippedSpeechTurn(s: SessionState, text: string, w: Collaborators, reply: string)
    requires w.generate(text, s.history) == Success(reply)
    ensures var t := TextTurnStep(s, text, true, w);
      var elapsed := w.clock.afterLlm - w.clock.start;
      && t.calls == s.calls + [Generate(text, s.history)]
      && t.history == s.history + [Turn(User, text), Turn(Assistant, reply)]
      && t.outbox == s.outbox + [Control("transcription_ready",
        TextReadyDetail(text, reply, map["llm_ms" := elapsed, "total_ms" := elapsed], true))]
  {
    TextTimingsMetrics(w.clock, true);
  }

  /**
   * A text turn without `skip_tts`: the reply is synthesised, `transcription_ready`
   * carries both stage times and their total, and the audio follows it.
   */
  lemma SpokenTextTurn(s: SessionState, text: string, w: Collaborators, reply: string, audio: seq<byte>)
    requires w.generate(text, s.history) == Success(reply)
    requires w.synthesize(reply) == Success(audio)
    ensures var t := TextTurnStep(s, text, false, w);
      var c := w.clock;
      && t.calls == s.calls + [Generate(text, s.history), Synthesize(reply)]
      && t.history == s.history + [Turn(User, text), Turn(Assistant, reply)]
      && t.outbox == s.outbox + [Control("transcription_ready", TextReadyDetail(text, reply, map[
          "llm_ms" := c.afterLlm - c.start, "tts_ms" := c.afterTts - c.afterLlm, "total_ms" := c.afterTts - c.start], false)),
        SendBytes(audio)]
  {
    TextTimingsMetrics(w.clock, false);
  }

  /**
   * The reply generator as `main.py` actually reaches it: `generate_reply(transcript,
   * chat_history)` against a definition that takes one parameter, so every call raises
   * TypeError before the function body runs.
   */
  function ArityMismatch(transcript: string, history: seq<Turn>): (r: Result<string, Raised>)
    ensures r.Failure? && r.error.kind == OtherError
  {
    Failure(Raised(OtherError, "generate_reply() takes 1 positional argument but 2 were given"))
  }

  /**
   * With that generator a spoken turn whose recognition succeeds never answers: the
   * TypeError leaves the session, nothing is sent, the history stays as it was and the
   * buffer is not emptied.
   */
  lemma AsWrittenSpokenTurnAborts(s: SessionState, w: Collaborators)
    requires Consistent(s.buffer) && s.buffer.pcm != []
    requires w.recognize(s.buffer.pcm, s.buffer.header.value).Success?
    ensures var t := FlushStep(s, w.(generate := ArityMismatch));
      && t.status.Aborted? && t.status.error.kind == OtherError
      && t.outbox == s.outbox && t.history == s.history && t.buffer == s.buffer
  {
  }

  /** And every non-blank text turn is answered with `text_input_failed` instead of a reply. */
  lemma AsWrittenTextTurnFails(s: SessionState, text: string, skip: bool, w: Collaborators)
    ensures var t := TextTurnStep(s, text, skip, w.(generate := ArityMismatch));
      && t.outbox == s.outbox + [InputFailed(ArityMismatch(text, s.history).error)]
      && t.history == s.history && t.buffer == s.buffer && t.status == s.status
  {
  }
}
