/**
 * One `/ws/audio` connection (`audio_websocket`, `_handle_control_message`,
 * `_flush_transcription`, `_process_text_input`), run strictly one message at a time.
 * The state is the utterance buffer, the chat history, the messages sent so far, the
 * collaborators called so far and whether the connection is still being served. The
 * recogniser, the reply generator, the synthesiser and the clock are handed in with
 * each message, as what they return for that message.
 */
module Session {
  import opened Wrappers
  import opened PyStr
  import opened JsonValue
  import opened Protocol
  import opened AudioBuffer
  import opened Timing

  datatype Role = User | Assistant

  /** One `{"role": ..., "content": ...}` entry of `chat_history`. */
  datatype Turn = Turn(role: Role, content: string)

  /** `send_text` of an encoded control message, or `send_bytes`. */
  datatype Outbound = SendText(message: Json) | SendBytes(data: seq<byte>)

  /** A call into a collaborator, with the arguments it was given. */
  datatype Call =
    | Recognize(pcm: seq<byte>, header: Header)
    | Generate(transcript: string, history: seq<Turn>)
    | Synthesize(text: string)

  /** The three clock readings of a text turn: the timer's creation, after the reply, after synthesis. */
  datatype Readings = Readings(start: int, afterLlm: int, afterTts: int)

  /**
   * What the collaborators do for one message: `transcribe_audio`, the two-argument
   * `generate_reply` the session calls, `synthesize_speech`, and the clock. A failure
   * is the exception the collaborator raises.
   */
  datatype Collaborators = Collaborators(
    recognize: (seq<byte>, Header) -> Result<string, Raised>,
    generate: (string, seq<Turn>) -> Result<string, Raised>,
    synthesize: string -> Result<seq<byte>, Raised>,
    clock: Readings)

  /** Still in the receive loop, left it on a disconnect, or left it by an exception. */
  datatype Status = Open | Disconnected | Aborted(error: Raised)

  /** A text message: its raw text and what `json.loads` made of it (None: not JSON). */
  datatype TextFrame = TextFrame(raw: string, decoded: Option<Json>)

  /** What `websocket.receive()` returns: a disconnect, or a message with optional bytes and text. */
  datatype Inbound = Disconnect | Message(bytes: Option<seq<byte>>, text: Option<TextFrame>)

  /** One received message together with what the collaborators do while it is handled. */
  datatype Arrival = Arrival(message: Inbound, services: Collaborators)

  datatype SessionState = SessionState(
    buffer: BufferState,
    history: seq<Turn>,
    outbox: seq<Outbound>,
    calls: seq<Call>,
    status: Status)

  /** `send_text(encode_control_message(event, payload))`. */
  function Control(event: string, payload: map<string, Json>): Outbound {
    SendText(EncodeControl(event, JObj(payload)))
  }

  /** The message is a control message with this event. */
  predicate IsEvent(m: Outbound, event: string) {
    m.SendText? && m.message.JObj? && "event" in m.message.fields && m.message.fields["event"] == JStr(event)
  }

  /** The payload object of a control message. */
  function Payload(m: Outbound): Json
    requires m.SendText? && m.message.JObj? && "payload" in m.message.fields
  {
    m.message.fields["payload"]
  }

  /** The state right after `accept`: empty buffer and history, and the `connected` message sent. */
  const Connected: SessionState :=
    SessionState(Empty, [], [Control("connected", map["note" := JStr("placeholder session")])], [], Open)

  function Emit(s: SessionState, m: Outbound): SessionState {
    s.(outbox := s.outbox + [m])
  }

  /** The error sent when `append_frame` rejects a frame. */
  function RejectDetail(e: AppendError, h: Header): map<string, Json> {
    map[
      "detail" := JStr(AppendErrorMessage(e)),
      "sequence" := JInt(h.sequence),
      "sample_rate" := JInt(h.sampleRate),
      "channels" := JInt(h.channels),
      "bits_per_sample" := JInt(h.bitsPerSample)]
  }

  /** A binary message: decode the header, check the trailing length, append to the buffer. */
  function BinaryStep(s: SessionState, raw: seq<byte>): SessionState {
    match Unpack(raw)
    case Failure(e) =>
      Emit(s, Control("error", map["detail" := JStr(DecodeErrorMessage(e)), "received_bytes" := JInt(|raw|)]))
    case Success(h) =>
      var payload := raw[HEADER_SIZE..];
      if |payload| != h.payloadLen then
        Emit(s, Control("error", map[
          "detail" := JStr("audio payload length mismatch"),
          "header_payload_len" := JInt(h.payloadLen),
          "actual_payload_len" := JInt(|payload|)]))
      else
        match AppendFrame(s.buffer, h, payload)
        case Success(b) => s.(buffer := b)
        case Failure(e) => Emit(s.(buffer := Empty), Control("error", RejectDetail(e, h)))
  }

  /** The `transcription_ready` payload of a spoken turn. */
  function ReadyDetail(h: Header, payloadBytes: nat, transcript: string, reply: string): map<string, Json> {
    map[
      "header" := JObj(map[
        "sample_rate" := JInt(h.sampleRate),
        "channels" := JInt(h.channels),
        "bits_per_sample" := JInt(h.bitsPerSample),
        "flags" := JInt(h.flags)]),
      "payload_bytes" := JInt(payloadBytes),
      "transcript" := JStr(transcript),
      "reply" := JStr(reply)]
  }

  /** The user's words and the reply, appended to the history. */
  function Exchange(history: seq<Turn>, transcript: string, reply: string): seq<Turn> {
    history + [Turn(User, transcript), Turn(Assistant, reply)]
  }

  /**
   * `_flush_transcription`. Without buffered bytes only `noop` is sent. A ValueError from
   * the snapshot or the recogniser is reported and clears the buffer; any other exception,
   * and any exception of the generator or the synthesiser, leaves the session.
   */
  function FlushStep(s: SessionState, w: Collaborators): SessionState {
    if |s.buffer.pcm| == 0 then Emit(s, Control("noop", map["detail" := JStr("no audio buffered")]))
    else
      match Snapshot(s.buffer)
      case Failure(e) => Emit(s, Control("error", map["detail" := JStr(SnapshotErrorMessage(e))])).(buffer := Empty)
      case Success(snap) =>
        var pcm := snap.0;
        var h := snap.1;
        var s1 := s.(calls := s.calls + [Recognize(pcm, h)]);
        match w.recognize(pcm, h)
        case Failure(e) =>
          if e.kind == ValueError then Emit(s1, Control("error", map["detail" := JStr(e.detail)])).(buffer := Empty)
          else s1.(status := Aborted(e))
        case Success(transcript) =>
          var s2 := s1.(calls := s1.calls + [Generate(transcript, s.history)]);
          match w.generate(transcript, s.history)
          case Failure(e) => s2.(status := Aborted(e))
          case Success(reply) =>
            var s3 := s2.(calls := s2.calls + [Synthesize(reply)]);
            match w.synthesize(reply)
            case Failure(e) => s3.(status := Aborted(e))
            case Success(audio) =>
              s3.(
                buffer := Empty,
                history := Exchange(s.history, transcript, reply),
                outbox := s.outbox + [Control("transcription_ready", ReadyDetail(h, |pcm|, transcript, reply)), SendBytes(audio)])
  }

  /** The `except Exception` of a text turn: `text_input_failed` with the exception's text. */
  function InputFailed(e: Raised): Outbound {
    Control("error", map["detail" := JStr("text_input_failed"), "error" := JStr(e.detail)])
  }

  /** The StageTimer samples of a text turn: the reply, then the synthesis unless it is skipped. */
  function TextTimings(c: Readings, skip: bool): seq<Sample> {
    [Sample("llm", c.afterLlm - c.start)] + if skip then [] else [Sample("tts", c.afterTts - c.afterLlm)]
  }

  /** `timer.metrics()` as the JSON object that is sent. */
  function TimingsJson(m: map<string, int>): Json {
    JObj(map k | k in m :: JInt(m[k]))
  }

  /** The `transcription_ready` payload of a text turn. */
  function TextReadyDetail(transcript: string, reply: string, timings: map<string, int>, skip: bool): map<string, Json> {
    map[
      "header" := JNull,
      "payload_bytes" := JInt(0),
      "transcript" := JStr(transcript),
      "reply" := JStr(reply),
      "timings" := TimingsJson(timings),
      "tts_skipped" := JBool(skip)]
  }

  /**
   * The part of `_process_text_input` after the checks on the payload: the reply, the
   * synthesis unless it is skipped, the history, and `transcription_ready`. An exception
   * becomes a `text_input_failed` error.
   */
  function TextTurnStep(s: SessionState, text: string, skip: bool, w: Collaborators): SessionState {
    var s1 := s.(calls := s.calls + [Generate(text, s.history)]);
    match w.generate(text, s.history)
    case Failure(e) => Emit(s1, InputFailed(e))
    case Success(reply) =>
      var timings := Metrics(TextTimings(w.clock, skip));
      var ready := Control("transcription_ready", TextReadyDetail(text, reply, timings, skip));
      if skip then
        s1.(history := Exchange(s.history, text, reply), outbox := s.outbox + [ready])
      else
        var s2 := s1.(calls := s1.calls + [Synthesize(reply)]);
        match w.synthesize(reply)
        case Failure(e) => Emit(s2, InputFailed(e))
        case Success(audio) =>
          s2.(history := Exchange(s.history, text, reply), outbox := s.outbox + [ready, SendBytes(audio)])
  }

  /**
   * `_process_text_input` inside its `except Exception`: a payload that is not an object,
   * or a truthy `text` that is not a string, raises AttributeError, reported as
   * `text_input_failed`; blank text is its own error.
   */
  function TextInputStep(s: SessionState, payload: Json, w: Collaborators): SessionState {
    if !payload.JObj? then Emit(s, InputFailed(Raised(OtherError, NoAttribute(payload, "get"))))
    else
      var given := Get(payload, "text").value;
      var text0 := if Truthy(given) then given else JStr("");
      if !text0.JStr? then Emit(s, InputFailed(Raised(OtherError, NoAttribute(text0, "strip"))))
      else
        var text := Strip(text0.s);
        var skip := Truthy(Get(payload, "skip_tts").value);
        if text == "" then Emit(s, Control("error", map["detail" := JStr("empty text input")]))
        else TextTurnStep(s, text, skip, w)
  }

  /**
   * `_handle_control_message`. Text that is not JSON, or JSON whose `type` is not the
   * control type, is acknowledged with an echo; a decoded value that is not an object
   * has no `get`, and the AttributeError leaves the session.
   */
  function TextStep(s: SessionState, f: TextFrame, w: Collaborators): SessionState {
    var echo := Control("ack", map["echo" := JStr(f.raw)]);
    match f.decoded
    case None => Emit(s, echo)
    case Some(control) =>
      match Get(control, "type")
      case Failure(e) => s.(status := Aborted(e))
      case Success(kind) =>
        if kind != JStr(MSG_TYPE_CONTROL) then Emit(s, echo)
        else
          var event := Get(control, "event").value;
          if event == JStr("speech_end") then FlushStep(s, w)
          else if event == JStr("reset_buffer") then
            Emit(s.(buffer := Empty), Control("ack", map["event" := JStr("reset_buffer")]))
          else if event == JStr("text_input") then
            var given := Get(control, "payload").value;
            TextInputStep(s, if Truthy(given) then given else JObj(map[]), w)
          else Emit(s, Control("ack", map["event" := event]))
  }

  /** One turn of the receive loop. Once the loop has been left, nothing happens any more. */
  function Step(s: SessionState, m: Inbound, w: Collaborators): SessionState {
    if !s.status.Open? then s
    else
      match m
      case Disconnect => s.(status := Disconnected)
      case Message(bytes, text) =>
        if bytes.Some? then BinaryStep(s, bytes.value)
        else if text.Some? then TextStep(s, text.value, w)
        else Emit(s, Control("noop", map[]))
  }

  /** The receive loop over the messages, in order. */
  function Run(s: SessionState, inbox: seq<Arrival>): SessionState {
    if inbox == [] then s
    else Step(Run(s, inbox[..|inbox| - 1]), inbox[|inbox| - 1].message, inbox[|inbox| - 1].services)
  }

  /**
   * The connection's state as the handler keeps it: the buffer object on
   * `websocket.state`, the history list, and what has been sent and called.
   */
  class Connection {
    const buffer: AudioStreamBuffer
    var history: seq<Turn>
    var outbox: seq<Outbound>
    var calls: seq<Call>
    var status: Status

    ghost predicate Valid()
      reads this, buffer
    {
      buffer.Valid()
    }

    function State(): SessionState
      reads this, buffer
    {
      SessionState(buffer.State(), history, outbox, calls, status)
    }

    /** `accept`, the `connected` message, a fresh buffer and an empty history. */
    constructor ()
      ensures Valid() && State() == Connected && fresh(buffer)
    {
      buffer := new AudioStreamBuffer();
      history := [];
      outbox := [Control("connected", map["note" := JStr("placeholder session")])];
      calls := [];
      status := Open;
    }

    method Send(m: Outbound)
      modifies this
      ensures outbox == old(outbox) + [m]
      ensures history == old(history) && calls == old(calls) && status == old(status)
    {
      outbox := outbox + [m];
    }

    /** The binary branch of the receive loop. */
    method OnBinary(raw: seq<byte>)
      requires Valid()
      modifies this, buffer
      ensures Valid() && State() == BinaryStep(old(State()), raw)
    {
      var decoded := Unpack(raw);
      if decoded.Failure? {
        Send(Control("error", map["detail" := JStr(DecodeErrorMessage(decoded.error)), "received_bytes" := JInt(|raw|)]));
        return;
      }
      var header := decoded.value;
      var payload := raw[HEADER_SIZE..];
      if |payload| != header.payloadLen {
        Send(Control("error", map[
          "detail" := JStr("audio payload length mismatch"),
          "header_payload_len" := JInt(header.payloadLen),
          "actual_payload_len" := JInt(|payload|)]));
        return;
      }
      var appended := buffer.Append(header, payload);
      if appended.Failure? {
        buffer.Clear();
        Send(Control("error", RejectDetail(appended.error, header)));
      }
    }

    /** `_flush_transcription`. */
    method FlushTranscription(w: Collaborators)
      requires Valid()
      modifies this, buffer
      ensures Valid() && State() == FlushStep(old(State()), w)
    {
      if buffer.IsEmpty() {
        Send(Control("noop", map["detail" := JStr("no audio buffered")]));
        return;
      }
      var snap := buffer.TakeSnapshot();
      if snap.Failure? {
        // Bytes are only ever buffered behind a reference header, so the snapshot succeeds.
        assert false;
      }
      var pcm, header := snap.value.0, snap.value.1;
      calls := calls + [Recognize(pcm, header)];
      var transcribed := w.recognize(pcm, header);
      if transcribed.Failure? {
        if transcribed.error.kind == ValueError {
          Send(Control("error", map["detail" := JStr(transcribed.error.detail)]));
          buffer.Clear();
        } else {
          status := Aborted(transcribed.error);
        }
        return;
      }
      var transcript := transcribed.value;
      calls := calls + [Generate(transcript, history)];
      var generated := w.generate(transcript, history);
      if generated.Failure? {
        status := Aborted(generated.error);
        return;
      }
      var reply := generated.value;
      calls := calls + [Synthesize(reply)];
      var synthesized := w.synthesize(reply);
      if synthesized.Failure? {
        status := Aborted(synthesized.error);
        return;
      }
      history := history + [Turn(User, transcript), Turn(Assistant, reply)];
      Send(Control("transcription_ready", ReadyDetail(header, |pcm|, transcript, reply)));
      Send(SendBytes(synthesized.value));
      buffer.Clear();
    }

    /** `_process_text_input` together with the `except Exception` around it. */
    method ProcessTextInput(payload: Json, w: Collaborators)
      requires Valid()
      modifies this
      ensures Valid() && State() == TextInputStep(old(State()), payload, w)
    {
      if !payload.JObj? {
        Send(InputFailed(Raised(OtherError, NoAttribute(payload, "get"))));
        return;
      }
      var given := Get(payload, "text").value;
      var text0 := if Truthy(given) then given else JStr("");
      if !text0.JStr? {
        Send(InputFailed(Raised(OtherError, NoAttribute(text0, "strip"))));
        return;
      }
      var text := Strip(text0.s);
      var skip := Truthy(Get(payload, "skip_tts").value);
      if text == "" {
        Send(Control("error", map["detail" := JStr("empty text input")]));
        return;
      }
      TextTurn(text, skip, w);
    }

    /** The reply and the optional synthesis of a text turn. */
    method TextTurn(text: string, skip: bool, w: Collaborators)
      requires Valid()
      modifies this
      ensures Valid() && State() == TextTurnStep(old(State()), text, skip, w)
    {
      calls := calls + [Generate(text, history)];
      var generated := w.generate(text, history);
      if generated.Failure? {
        Send(InputFailed(generated.error));
        return;
      }
      var reply := generated.value;
      var audio: seq<byte> := [];
      if !skip {
        calls := calls + [Synthesize(reply)];
        var synthesized := w.synthesize(reply);
        if synthesized.Failure? {
          Send(InputFailed(synthesized.error));
          return;
        }
        audio := synthesized.value;
      }
      history := history + [Turn(User, text), Turn(Assistant, reply)];
      var timings := TimeTextTurn(w.clock, skip);
      Send(Control("transcription_ready", TextReadyDetail(text, reply, timings, skip)));
      if !skip {
        Send(SendBytes(audio));
      }
    }

    /** `_handle_control_message`. */
    method HandleControlMessage(f: TextFrame, w: Collaborators)
      requires Valid()
      modifies this, buffer
      ensures Valid() && State() == TextStep(old(State()), f, w)
    {
      if f.decoded.None? {
        Send(Control("ack", map["echo" := JStr(f.raw)]));
        return;
      }
      var control := f.decoded.value;
      var kind := Get(control, "type");
      if kind.Failure? {
        status := Aborted(kind.error);
        return;
      }
      if kind.value != JStr(MSG_TYPE_CONTROL) {
        Send(Control("ack", map["echo" := JStr(f.raw)]));
        return;
      }
      var event := Get(control, "event").value;
      if event == JStr("speech_end") {
        FlushTranscription(w);
      } else if event == JStr("reset_buffer") {
        buffer.Clear();
        Send(Control("ack", map["event" := JStr("reset_buffer")]));
      } else if event == JStr("text_input") {
        var given := Get(control, "payload").value;
        ProcessTextInput(if Truthy(given) then given else JObj(map[]), w);
      } else {
        Send(Control("ack", map["event" := event]));
      }
    }

    /** One turn of the receive loop of `audio_websocket`. */
    method HandleMessage(m: Inbound, w: Collaborators)
      requires Valid()
      modifies this, buffer
      ensures Valid() && State() == Step(old(State()), m, w)
    {
      if !status.Open? {
        return;
      }
      match m
      case Disconnect =>
        status := Disconnected;
      case Message(bytes, text) =>
        if bytes.Some? {
          OnBinary(bytes.value);
        } else if text.Some? {
          HandleControlMessage(text.value, w);
        } else {
          Send(Control("noop", map[]));
        }
    }

    /** The receive loop: messages are handled in order until the loop is left. */
    method Serve(inbox: seq<Arrival>)
      requires Valid()
      modifies this, buffer
      ensures Valid() && State() == Run(old(State()), inbox)
    {
      var i := 0;
      while i < |inbox| && status.Open?
        invariant 0 <= i <= |inbox| && Valid()
        invariant State() == Run(old(State()), inbox[..i])
      {
        RunSnoc(old(State()), inbox, i);
        HandleMessage(inbox[i].message, inbox[i].services);
        i := i + 1;
      }
      RunAfterClose(old(State()), inbox, i);
    }
  }

  /**
   * The StageTimer of a text turn, fed the turn's clock readings: created at the start,
   * marked "llm" after the reply and "tts" after the synthesis unless it is skipped.
   */
  method TimeTextTurn(clock: Readings, skip: bool) returns (timings: map<string, int>)
    ensures timings == Metrics(TextTimings(clock, skip))
  {
    var timer := new StageTimer(clock.start);
    timer.Mark("llm", clock.afterLlm);
    assert timer.durations == [Sample("llm", clock.afterLlm - clock.start)];
    if !skip {
      timer.Mark("tts", clock.afterTts);
      assert timer.durations == [Sample("llm", clock.afterLlm - clock.start), Sample("tts", clock.afterTts - clock.afterLlm)];
    }
    assert timer.durations == TextTimings(clock, skip);
    timings := timer.GetMetrics();
  }

  /** One more message: the loop so far, then that message. */
  lemma RunSnoc(s: SessionState, inbox: seq<Arrival>, i: nat)
    requires i < |inbox|
    ensures Run(s, inbox[..i + 1]) == Step(Run(s, inbox[..i]), inbox[i].message, inbox[i].services)
  {
    assert inbox[..i + 1][..i] == inbox[..i];
  }

  /** Once the loop has been left, the remaining messages change nothing. */
  lemma {:induction false} RunAfterClose(s: SessionState, inbox: seq<Arrival>, i: nat)
    requires i <= |inbox|
    requires i < |inbox| ==> !Run(s, inbox[..i]).status.Open?
    ensures Run(s, inbox) == Run(s, inbox[..i])
  {
    if i == |inbox| {
      assert inbox[..i] == inbox;
    } else {
      var init := inbox[..|inbox| - 1];
      assert init[..i] == inbox[..i];
      RunAfterClose(s, init, i);
    }
  }
}
