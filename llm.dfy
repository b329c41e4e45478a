/**
 * The reply side of the language-model bridge: `_sanitize_reply`, which cleans a model
 * reply for speech synthesis, and the fallback policy of `generate_reply`. The HTTP
 * request to OpenRouter is an outcome handed in: either the exception it raised or the
 * decoded JSON body it returned.
 */
module Llm {
  import opened Wrappers
  import opened PyStr
  import opened JsonValue

  /** The `{0,80}` bound of the stage-direction patterns. */
  const SPAN_LIMIT: nat := 80

  /** The characters `.strip('"“”\'')` removes. */
  predicate IsQuote(c: char) {
    c == '"' || c == '“' || c == '”' || c == '\''
  }

  /**
   * The index of the first `close` in `t`, provided it is at most `budget`: the length of
   * the inner text when a span opens just before `t`.
   */
  function FindClose(t: string, close: char, budget: nat): (r: Option<nat>)
    ensures r.Some? ==> r.value <= budget && r.value < |t| && t[r.value] == close
    ensures r.Some? ==> forall j :: 0 <= j < r.value ==> t[j] != close
    ensures r.None? ==> forall j :: 0 <= j < |t| && j <= budget ==> t[j] != close
    decreases budget
  {
    if t == [] then None
    else if t[0] == close then Some(0)
    else if budget == 0 then None
    else
      match FindClose(t[1..], close, budget - 1)
      case None => None
      case Some(k) => Some(k + 1)
  }

  /**
   * `re.sub(open + "[^" + close + "]{0,80}" + close, " ", s)`: scanning left to right, a span
   * starts at an `open` whose first following `close` is at most 80 characters away; the
   * span is replaced by one space and the scan resumes after it.
   */
  function RemoveSpans(s: string, open: char, close: char): string
    decreases |s|
  {
    if s == [] then ""
    else if s[0] == open then
      match FindClose(s[1..], close, SPAN_LIMIT)
      case Some(k) => " " + RemoveSpans(s[k + 2..], open, close)
      case None => [s[0]] + RemoveSpans(s[1..], open, close)
    else [s[0]] + RemoveSpans(s[1..], open, close)
  }

  /** A bounded span at the front becomes a single space. */
  lemma SpanReplaced(inner: string, rest: string, open: char, close: char)
    requires |inner| <= SPAN_LIMIT && close !in inner
    ensures RemoveSpans([open] + inner + [close] + rest, open, close) == " " + RemoveSpans(rest, open, close)
  {
    var s := [open] + inner + [close] + rest;
    assert s[1..] == inner + [close] + rest;
    var k := |inner|;
    assert s[1..][k] == close;
    assert forall j :: 0 <= j < k ==> s[1..][j] == inner[j];
    assert FindClose(s[1..], close, SPAN_LIMIT) == Some(k);
    assert s[k + 2..] == rest;
  }

  /** A string without an opening character comes through unchanged. */
  lemma {:induction false} NoSpanUnchanged(s: string, open: char, close: char)
    requires open !in s
    ensures RemoveSpans(s, open, close) == s
  {
    if s != [] {
      NoSpanUnchanged(s[1..], open, close);
    }
  }

  /** Text before the first opening character comes through unchanged, ahead of the rest. */
  lemma {:induction false} PrefixPassesThrough(p: string, s: string, open: char, close: char)
    requires open !in p
    ensures RemoveSpans(p + s, open, close) == p + RemoveSpans(s, open, close)
  {
    if p == [] {
      assert p + s == s;
    } else {
      var ps := p + s;
      assert ps[0] == p[0] && p[0] != open;
      assert ps[1..] == p[1..] + s;
      assert RemoveSpans(ps, open, close) == [p[0]] + RemoveSpans(p[1..] + s, open, close);
      PrefixPassesThrough(p[1..], s, open, close);
      assert p == [p[0]] + p[1..];
    }
  }

  /** A bounded span after text with no opening character becomes a single space, wherever it stands. */
  lemma SpanReplacedAnywhere(p: string, inner: string, rest: string, open: char, close: char)
    requires open !in p
    requires |inner| <= SPAN_LIMIT && close !in inner
    ensures RemoveSpans(p + [open] + inner + [close] + rest, open, close) == p + " " + RemoveSpans(rest, open, close)
  {
    var span := [open] + inner + [close] + rest;
    assert p + [open] + inner + [close] + rest == p + span;
    PrefixPassesThrough(p, span, open, close);
    SpanReplaced(inner, rest, open, close);
  }

  /** The number of whitespace characters at the front of `s`. */
  function LeadingSpaces(s: string): (n: nat)
    ensures n <= |s|
    ensures forall i :: 0 <= i < n ==> IsSpace(s[i])
    ensures n < |s| ==> !IsSpace(s[n])
  {
    if s != [] && IsSpace(s[0]) then 1 + LeadingSpaces(s[1..]) else 0
  }

  /** `re.sub(r"\s{2,}", " ", s)`: every run of two or more whitespace characters becomes one space. */
  function CollapseWhitespace(s: string): string
    decreases |s|
  {
    if s == [] then ""
    else
      var n := LeadingSpaces(s);
      if n >= 2 then " " + CollapseWhitespace(s[n..])
      else [s[0]] + CollapseWhitespace(s[1..])
  }

  /** No two whitespace characters stand next to each other. */
  ghost predicate NoDoubleSpace(s: string) {
    forall i, j :: 0 <= i && j == i + 1 && j < |s| ==> !(IsSpace(s[i]) && IsSpace(s[j]))
  }

  /** Collapsing leaves no two adjacent whitespace characters and keeps whether the text starts with one. */
  lemma {:induction false} CollapseProperties(s: string)
    ensures var r := CollapseWhitespace(s);
      && NoDoubleSpace(r)
      && (r == [] <==> s == [])
      && (r != [] ==> (IsSpace(r[0]) <==> IsSpace(s[0])))
    decreases |s|
  {
    if s != [] {
      var n := LeadingSpaces(s);
      if n >= 2 {
        CollapseProperties(s[n..]);
        var rest := CollapseWhitespace(s[n..]);
        assert rest != [] ==> !IsSpace(rest[0]);
        assert CollapseWhitespace(s) == " " + rest;
      } else {
        CollapseProperties(s[1..]);
        var rest := CollapseWhitespace(s[1..]);
        assert IsSpace(s[0]) && s[1..] != [] ==> !IsSpace(s[1..][0]);
        assert CollapseWhitespace(s) == [s[0]] + rest;
      }
    }
  }

  /** Cutting characters off the ends of a text keeps it free of adjacent whitespace. */
  lemma StripKeepsNoDoubleSpace(s: string)
    requires NoDoubleSpace(s)
    ensures NoDoubleSpace(Strip(s))
  {
    var l := TrimLeft(s, IsSpace);
    SliceKeepsNoDoubleSpace(s, |s| - |l|, |s|);
    var r := TrimRight(l, IsSpace);
    SliceKeepsNoDoubleSpace(l, 0, |r|);
  }

  lemma SliceKeepsNoDoubleSpace(s: string, lo: nat, hi: nat)
    requires lo <= hi <= |s| && NoDoubleSpace(s)
    ensures NoDoubleSpace(s[lo..hi])
  {
    var t := s[lo..hi];
    forall i, j | 0 <= i && j == i + 1 && j < |t|
      ensures !(IsSpace(t[i]) && IsSpace(t[j]))
    {
      assert t[i] == s[lo + i] && t[j] == s[lo + j];
    }
  }

  /** The text `_sanitize_reply` computes before falling back to the original reply. */
  function Cleaned(reply: string): string {
    var noActions := RemoveSpans(reply, '*', '*');
    var noBrackets := RemoveSpans(noActions, '[', ']');
    var unquoted := StripChars(Strip(noBrackets), IsQuote);
    Strip(CollapseWhitespace(unquoted))
  }

  /**
   * A reply wrapped in quotation marks, with no stage directions and no further quotation
   * mark at either end of the text inside, is cleaned to that text with its whitespace
   * runs collapsed and its ends stripped.
   */
  lemma QuotesRemoved(q1: char, t: string, q2: char)
    requires IsQuote(q1) && IsQuote(q2)
    requires t != [] && !IsQuote(t[0]) && !IsQuote(t[|t| - 1])
    requires '*' !in t && '[' !in t
    ensures Cleaned([q1] + t + [q2]) == Strip(CollapseWhitespace(t))
  {
    var s := [q1] + t + [q2];
    assert '*' !in s && '[' !in s;
    NoMarkupUnchanged(s);
    QuotedUnwrapped(q1, t, q2);
  }

  lemma NoMarkupUnchanged(s: string)
    requires '*' !in s && '[' !in s
    ensures RemoveSpans(RemoveSpans(s, '*', '*'), '[', ']') == s
  {
    NoSpanUnchanged(s, '*', '*');
    NoSpanUnchanged(s, '[', ']');
  }

  lemma QuotedUnwrapped(q1: char, t: string, q2: char)
    requires IsQuote(q1) && IsQuote(q2)
    requires t != [] && !IsQuote(t[0]) && !IsQuote(t[|t| - 1])
    ensures StripChars(Strip([q1] + t + [q2]), IsQuote) == t
  {
    var s := [q1] + t + [q2];
    assert s[0] == q1 && s[|s| - 1] == q2;
    StripCharsKeeps(s, IsSpace);
    StripCharsEnclosed(q1, t, q2, IsQuote);
  }

  /**
   * `_sanitize_reply`: the cleaned text, or the reply unchanged when nothing is left of
   * it. A non-empty cleaned text has no surrounding whitespace and no two adjacent
   * whitespace characters.
   */
  function SanitizeReply(reply: string): (r: string)
    ensures Cleaned(reply) == "" ==> r == reply
    ensures Cleaned(reply) != "" ==>
      && r == Cleaned(reply)
      && Strip(r) == r
      && NoDoubleSpace(r)
  {
    var cleaned := Cleaned(reply);
    CleanedShape(reply);
    if cleaned != "" then cleaned else reply
  }

  /** The cleaned text is already stripped and has no two adjacent whitespace characters. */
  lemma CleanedShape(reply: string)
    ensures Strip(Cleaned(reply)) == Cleaned(reply)
    ensures NoDoubleSpace(Cleaned(reply))
  {
    var noBrackets := RemoveSpans(RemoveSpans(reply, '*', '*'), '[', ']');
    var unquoted := StripChars(Strip(noBrackets), IsQuote);
    CollapseProperties(unquoted);
    StripKeepsNoDoubleSpace(CollapseWhitespace(unquoted));
    StripCharsIdempotent(CollapseWhitespace(unquoted), IsSpace);
  }

  /** What `_post_openrouter` did: raised, or returned the decoded response body. */
  datatype PostOutcome = PostRaised(error: Raised) | PostReturned(data: Json)

  function Fallback(text: string): string {
    "Echoing your words: " + text
  }

  /** Python's `v[0]` on a decoded JSON value that is truthy. */
  function Index0(v: Json): Result<Json, Raised> {
    match v
    case JArr(items) => if items != [] then Success(items[0]) else Failure(Raised(OtherError, "list index out of range"))
    case JStr(s) => if s != "" then Success(JStr([s[0]])) else Failure(Raised(OtherError, "string index out of range"))
    case JObj(_) => Failure(Raised(OtherError, "0"))
    case _ => Failure(Raised(OtherError, "'" + TypeName(v) + "' object is not subscriptable"))
  }

  /** Python's `v[key]` on a decoded JSON value. */
  function Subscript(v: Json, key: string): Result<Json, Raised> {
    match v
    case JObj(fields) => if key in fields then Success(fields[key]) else Failure(Raised(OtherError, "'" + key + "'"))
    case JArr(_) => Failure(Raised(OtherError, "list indices must be integers or slices, not str"))
    case JStr(_) => Failure(Raised(OtherError, "string indices must be integers, not 'str'"))
    case _ => Failure(Raised(OtherError, "'" + TypeName(v) + "' object is not subscriptable"))
  }

  /** `choices[0]["message"]["content"]`. */
  function FirstContent(choices: Json): Result<Json, Raised> {
    match Index0(choices)
    case Failure(e) => Failure(e)
    case Success(first) =>
      match Subscript(first, "message")
      case Failure(e) => Failure(e)
      case Success(message) => Subscript(message, "content")
  }

  /** The `except (URLError, ValueError, JSONDecodeError)` clause. */
  predicate Caught(e: Raised) {
    e.kind == URLError || e.kind == ValueError
  }

  /**
   * `generate_reply(text)`, with `apiKey` the configured OPENROUTER_API_KEY and `post` what
   * the request did. A failure is an exception that escapes the function.
   */
  function GenerateReply(text: string, apiKey: Option<string>, post: PostOutcome): (r: Result<string, Raised>)
    ensures Strip(text) == "" || apiKey.None? || apiKey == Some("") ==> r == Success(Fallback(text))
    ensures post.PostRaised? && Caught(post.error) ==> r == Success(Fallback(text))
    ensures r.Failure? ==> r.error.kind == OtherError
    ensures r.Success? ==> r.value == Fallback(text) || Strip(r.value) != ""
  {
    var fallback := Fallback(text);
    if Strip(text) == "" then Success(fallback)
    else if apiKey.None? || apiKey.value == "" then Success(fallback)
    else
      match post
      case PostRaised(e) => if Caught(e) then Success(fallback) else Failure(e)
      case PostReturned(data) =>
        match Get(data, "choices")
        case Failure(e) => Failure(e)
        case Success(field) =>
          if !Truthy(field) then Success(fallback)
          else
            match FirstContent(field)
            case Failure(e) => Failure(e)
            case Success(message) =>
              if message.JStr? then
                var sanitized := SanitizeReply(message.s);
                Success(if Strip(sanitized) != "" then sanitized else fallback)
              else Success(fallback)
  }

  /**
   * Any body whose `choices` list starts with an object holding a `message` object that
   * holds a `content` field, whatever else the list, the objects and the body hold: string
   * content gives the sanitised reply when it has a non-whitespace character and the
   * fallback otherwise; other content gives the fallback.
   */
  lemma AnswerPolicy(text: string, key: string, data: Json, first: map<string, Json>, more: seq<Json>, msg: map<string, Json>)
    requires Strip(text) != "" && key != ""
    requires data.JObj? && "choices" in data.fields && data.fields["choices"] == JArr([JObj(first)] + more)
    requires "message" in first && first["message"] == JObj(msg) && "content" in msg
    ensures var content := msg["content"];
      GenerateReply(text, Some(key), PostReturned(data)) ==
        if content.JStr? && Strip(SanitizeReply(content.s)) != "" then Success(SanitizeReply(content.s))
        else Success(Fallback(text))
  {
    var choices := data.fields["choices"];
    assert Get(data, "choices") == Success(choices);
    assert Truthy(choices);
    assert Index0(choices) == Success(JObj(first));
    assert Subscript(JObj(first), "message") == Success(JObj(msg));
    assert FirstContent(choices) == Success(msg["content"]);
  }

  /** Any object body whose `choices` is missing or falsy (null, false, 0, "", [] or {}) gives the fallback. */
  lemma NoChoicesPolicy(text: string, key: string, data: Json)
    requires Strip(text) != "" && key != ""
    requires data.JObj? && ("choices" !in data.fields || !Truthy(data.fields["choices"]))
    ensures GenerateReply(text, Some(key), PostReturned(data)) == Success(Fallback(text))
  {
    assert Get(data, "choices").Success? && !Truthy(Get(data, "choices").value);
  }
}
