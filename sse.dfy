/**
 * Server-Sent-Events framing of the relay (src/app/api/chat/route.ts, the three
 * `data: ${JSON.stringify(...)}\n\n` templates). Each frame is one `data:` line
 * whose JSON payload is written as JSON.stringify writes it, string escaping
 * included. The decoder is what an SSE client does with the byte stream; the
 * round-trip lemmas show the framing loses nothing and cannot be confused by
 * any chunk text.
 */
module Sse {
  import opened Wrappers
  import opened Seqs

  datatype Frame = TextFrame(text: string) | DoneFrame | ErrorFrame(text: string)

  const TEXT_OPEN: string := "{\"type\":\"text\",\"text\":\""
  const ERROR_OPEN: string := "{\"type\":\"error\",\"text\":\""
  const CLOSE: string := "\"}"
  const DONE_PAYLOAD: string := "{\"done\":true}"
  const FIELD: string := "data: "
  const BLANK: string := "\n\n"

  function HexChar(d: nat): (c: char)
    requires d < 16
  {
    if d < 10 then ('0' as int + d) as char else ('a' as int + d - 10) as char
  }

  function HexDigit(c: char): Option<nat>
  {
    if '0' <= c <= '9' then Some(c as int - '0' as int)
    else if 'a' <= c <= 'f' then Some(c as int - 'a' as int + 10)
    else if 'A' <= c <= 'F' then Some(c as int - 'A' as int + 10)
    else None
  }

  /** Neither line terminator SSE knows (line feed, carriage return) occurs in `s`. */
  predicate NoLineBreak(s: string)
  {
    forall i :: 0 <= i < |s| ==> s[i] != '\n' && s[i] != '\r'
  }

  /** One character of a JSON.stringify string literal (ECMAScript QuoteJSONString). */
  function EscapeChar(c: char): string
  {
    if c == '"' then "\\\""
    else if c == '\\' then "\\\\"
    else if c as int == 8 then "\\b"
    else if c == '\t' then "\\t"
    else if c == '\n' then "\\n"
    else if c as int == 12 then "\\f"
    else if c == '\r' then "\\r"
    else if c < ' ' then "\\u00" + [HexChar(c as int / 16), HexChar(c as int % 16)]
    else [c]
  }

  /** The inside of the string literal JSON.stringify writes for `s`. */
  function Escape(s: string): string
  {
    if s == [] then [] else EscapeChar(s[0]) + Escape(s[1..])
  }

  /** Only the quote, the backslash and the control characters are escaped, always starting
      with a backslash, and no escape contains a line terminator. */
  lemma EscapedCharacters(c: char)
    ensures EscapeChar(c) == [c] <==> c != '"' && c != '\\' && c >= ' '
    ensures EscapeChar(c) != [c] ==> |EscapeChar(c)| >= 2 && EscapeChar(c)[0] == '\\'
    ensures NoLineBreak(EscapeChar(c))
  {
  }

  lemma NoLineBreakConcat(a: string, b: string)
    requires NoLineBreak(a) && NoLineBreak(b)
    ensures NoLineBreak(a + b)
  {
    forall i | 0 <= i < |a + b| ensures (a + b)[i] != '\n' && (a + b)[i] != '\r' {
      if i >= |a| {
        assert (a + b)[i] == b[i - |a|];
      }
    }
  }

  /** The JSON payload of a frame, keys in the order the object literals give them. */
  function Payload(f: Frame): string
  {
    match f
    case TextFrame(t) => TEXT_OPEN + Escape(t) + CLOSE
    case DoneFrame => DONE_PAYLOAD
    case ErrorFrame(t) => ERROR_OPEN + Escape(t) + CLOSE
  }

  /** The text handed to the encoder for one frame. */
  function Encode(f: Frame): string
  {
    FIELD + Payload(f) + BLANK
  }

  function EncodeAll(fs: seq<Frame>): string
  {
    if fs == [] then [] else Encode(fs[0]) + EncodeAll(fs[1..])
  }

  // ---------------------------------------------------------------------------
  // The client side: reading frames back.

  function ShortEscape(c: char): Option<char>
  {
    if c == '"' then Some('"')
    else if c == '\\' then Some('\\')
    else if c == '/' then Some('/')
    else if c == 'b' then Some(8 as char)
    else if c == 'f' then Some(12 as char)
    else if c == 'n' then Some('\n')
    else if c == 'r' then Some('\r')
    else if c == 't' then Some('\t')
    else None
  }

  function Cons(c: char, rest: Option<string>): Option<string>
  {
    if rest.Some? then Some([c] + rest.value) else None
  }

  /** The inside of a JSON string literal, decoded; None when it is not a valid one. */
  function Unescape(s: string): Option<string>
    decreases |s|
  {
    if s == [] then Some([])
    else if s[0] == '\\' then
      if |s| >= 6 && s[1] == 'u'
         && HexDigit(s[2]).Some? && HexDigit(s[3]).Some? && HexDigit(s[4]).Some? && HexDigit(s[5]).Some?
      then
        var code := ((HexDigit(s[2]).value * 16 + HexDigit(s[3]).value) * 16 + HexDigit(s[4]).value) * 16
                    + HexDigit(s[5]).value;
        if code < 0xD800 || 0xE000 <= code < 0x11_0000 then Cons(code as char, Unescape(s[6..])) else None
      else if |s| >= 2 && s[1] != 'u' && ShortEscape(s[1]).Some? then Cons(ShortEscape(s[1]).value, Unescape(s[2..]))
      else None
    else if s[0] == '"' || s[0] < ' ' then None
    else Cons(s[0], Unescape(s[1..]))
  }

  predicate Enveloped(p: string, open: string)
  {
    |p| >= |open| + |CLOSE| && p[..|open|] == open && p[|p| - |CLOSE|..] == CLOSE
  }

  function DecodePayload(p: string): Option<Frame>
  {
    if p == DONE_PAYLOAD then Some(DoneFrame)
    else if Enveloped(p, TEXT_OPEN) then
      var t := Unescape(p[|TEXT_OPEN|..|p| - |CLOSE|]);
      if t.Some? then Some(TextFrame(t.value)) else None
    else if Enveloped(p, ERROR_OPEN) then
      var t := Unescape(p[|ERROR_OPEN|..|p| - |CLOSE|]);
      if t.Some? then Some(ErrorFrame(t.value)) else None
    else None
  }

  function DecodeFrame(s: string): Option<Frame>
  {
    if |s| >= |FIELD| + |BLANK| && s[..|FIELD|] == FIELD && s[|s| - |BLANK|..] == BLANK
    then DecodePayload(s[|FIELD|..|s| - |BLANK|])
    else None
  }

  /** Index of the first line feed of `s`, or |s| when there is none. */
  function LineEnd(s: string): (k: nat)
    ensures k <= |s|
    ensures forall i :: 0 <= i < k ==> s[i] != '\n'
    ensures k < |s| ==> s[k] == '\n'
  {
    if s == [] || s[0] == '\n' then 0 else 1 + LineEnd(s[1..])
  }

  /** Splits an SSE body at its blank lines and decodes each frame. */
  function DecodeStream(s: string): Option<seq<Frame>>
    decreases |s|
  {
    if s == [] then Some([])
    else
      var k := LineEnd(s);
      if k + 2 <= |s| && s[k + 1] == '\n' then
        var f := DecodeFrame(s[..k + 2]);
        var rest := DecodeStream(s[k + 2..]);
        if f.Some? && rest.Some? then Some([f.value] + rest.value) else None
      else None
  }

  // ---------------------------------------------------------------------------
  // Properties of the framing.

  lemma HexRoundTrip(d: nat)
    requires d < 16
    ensures HexDigit(HexChar(d)) == Some(d)
  {
  }

  lemma UnescapeEscapeChar(c: char, rest: string)
    ensures Unescape(EscapeChar(c) + rest) == Cons(c, Unescape(rest))
  {
    var s := EscapeChar(c) + rest;
    if c < ' ' && c as int !in {8, 9, 10, 12, 13} {
      var hi, lo := c as int / 16, c as int % 16;
      HexRoundTrip(hi);
      HexRoundTrip(lo);
      assert s[..6] == ['\\', 'u', '0', '0', HexChar(hi), HexChar(lo)];
      assert s[6..] == rest;
    } else if EscapeChar(c) == [c] {
      assert s[1..] == rest;
    } else {
      assert |EscapeChar(c)| == 2;
      assert s[2..] == rest;
    }
  }

  /** Decoding the string literal JSON.stringify writes gives back the original text. */
  lemma {:induction false} UnescapeEscape(s: string)
    ensures Unescape(Escape(s)) == Some(s)
  {
    if s != [] {
      UnescapeEscapeChar(s[0], Escape(s[1..]));
      UnescapeEscape(s[1..]);
      assert [s[0]] + s[1..] == s;
    }
  }

  /** Whatever `s` holds, its escaped form has no line terminator. */
  lemma {:induction false} EscapeHasNoLineBreak(s: string)
    ensures NoLineBreak(Escape(s))
  {
    if s != [] {
      EscapeHasNoLineBreak(s[1..]);
      EscapedCharacters(s[0]);
      NoLineBreakConcat(EscapeChar(s[0]), Escape(s[1..]));
    }
  }

  /** Text with nothing to escape is written as it is. */
  lemma {:induction false} EscapeKeepsPlainText(s: string)
    requires forall i :: 0 <= i < |s| ==> EscapeChar(s[i]) == [s[i]]
    ensures Escape(s) == s
  {
    if s != [] {
      assert forall i :: 0 <= i < |s| - 1 ==> s[1..][i] == s[i + 1];
      EscapeKeepsPlainText(s[1..]);
      assert [s[0]] + s[1..] == s;
    }
  }

  /** Whatever the chunk or error text, no payload holds a line terminator. */
  lemma PayloadHasNoLineBreak(f: Frame)
    ensures NoLineBreak(Payload(f))
  {
    match f
    case DoneFrame =>
    case TextFrame(t) =>
      EscapeHasNoLineBreak(t);
      NoLineBreakConcat(TEXT_OPEN, Escape(t));
      NoLineBreakConcat(TEXT_OPEN + Escape(t), CLOSE);
    case ErrorFrame(t) =>
      EscapeHasNoLineBreak(t);
      NoLineBreakConcat(ERROR_OPEN, Escape(t));
      NoLineBreakConcat(ERROR_OPEN + Escape(t), CLOSE);
  }

  /** Each frame is a single `data:` line followed by the blank line that ends the event: its
      only line terminators are the two final line feeds. */
  lemma FrameIsOneLine(f: Frame)
    ensures var s := Encode(f);
      && |s| >= |FIELD| + |BLANK| && s[..|FIELD|] == FIELD
      && s[|s| - |BLANK|..] == BLANK && NoLineBreak(s[..|s| - |BLANK|])
  {
    var s := Encode(f);
    PayloadHasNoLineBreak(f);
    NoLineBreakConcat(FIELD, Payload(f));
    assert s[..|s| - |BLANK|] == FIELD + Payload(f);
    assert s[..|FIELD|] == FIELD;
  }

  lemma DecodeEnveloped(open: string, e: string)
    ensures var p := open + e + CLOSE;
      Enveloped(p, open) && p[|open|..|p| - |CLOSE|] == e
  {
    var p := open + e + CLOSE;
    assert p[..|open|] == open;
    assert p[|p| - |CLOSE|..] == CLOSE;
    assert p[|open|..|p| - |CLOSE|] == e;
  }

  lemma DecodeFramed(p: string)
    ensures DecodeFrame(FIELD + p + BLANK) == DecodePayload(p)
  {
    var s := FIELD + p + BLANK;
    assert s[..|FIELD|] == FIELD;
    assert s[|s| - |BLANK|..] == BLANK;
    assert s[|FIELD|..|s| - |BLANK|] == p;
  }

  /** Which envelope a text payload is in. */
  lemma TextPayloadEnvelope(t: string)
    ensures var p := Payload(TextFrame(t));
      && p != DONE_PAYLOAD
      && Enveloped(p, TEXT_OPEN) && p[|TEXT_OPEN|..|p| - |CLOSE|] == Escape(t)
  {
    TextEnvelopeOf(Escape(t));
  }

  lemma TextEnvelopeOf(e: string)
    ensures var p := TEXT_OPEN + e + CLOSE;
      && p != DONE_PAYLOAD
      && Enveloped(p, TEXT_OPEN) && p[|TEXT_OPEN|..|p| - |CLOSE|] == e
  {
    DecodeEnveloped(TEXT_OPEN, e);
    NotDone(TEXT_OPEN + e + CLOSE, TEXT_OPEN);
  }

  lemma ErrorEnvelopeOf(e: string)
    ensures var p := ERROR_OPEN + e + CLOSE;
      && p != DONE_PAYLOAD && !Enveloped(p, TEXT_OPEN)
      && Enveloped(p, ERROR_OPEN) && p[|ERROR_OPEN|..|p| - |CLOSE|] == e
  {
    var p := ERROR_OPEN + e + CLOSE;
    DecodeEnveloped(ERROR_OPEN, e);
    NotDone(p, ERROR_OPEN);
    NotText(p);
  }

  /** A payload that opens with `"type"` is not the done payload. */
  lemma NotDone(p: string, open: string)
    requires |open| > 2 && open[2] == 't' && |p| >= |open| && p[..|open|] == open
    ensures p != DONE_PAYLOAD
  {
    assert p[2] == open[2];
    assert DONE_PAYLOAD[2] == 'd';
  }

  lemma DecodeTextPayloadOf(p: string, t: string)
    requires p != DONE_PAYLOAD && Enveloped(p, TEXT_OPEN)
    requires Unescape(p[|TEXT_OPEN|..|p| - |CLOSE|]) == Some(t)
    ensures DecodePayload(p) == Some(TextFrame(t))
  {
  }

  lemma DecodeTextPayload(t: string)
    ensures DecodePayload(Payload(TextFrame(t))) == Some(TextFrame(t))
  {
    TextPayloadEnvelope(t);
    UnescapeEscape(t);
    DecodeTextPayloadOf(Payload(TextFrame(t)), t);
  }

  /** Which envelope an error payload is in. */
  lemma ErrorPayloadEnvelope(t: string)
    ensures var p := Payload(ErrorFrame(t));
      && p != DONE_PAYLOAD && !Enveloped(p, TEXT_OPEN)
      && Enveloped(p, ERROR_OPEN) && p[|ERROR_OPEN|..|p| - |CLOSE|] == Escape(t)
  {
    ErrorEnvelopeOf(Escape(t));
  }

  /** A payload that opens with the error envelope is not in the text envelope. */
  lemma NotText(p: string)
    requires |p| >= |ERROR_OPEN| && p[..|ERROR_OPEN|] == ERROR_OPEN
    ensures !Enveloped(p, TEXT_OPEN)
  {
    assert p[9] == ERROR_OPEN[9] == 'e';
    assert TEXT_OPEN[9] == 't';
  }

  lemma DecodeErrorPayloadOf(p: string, t: string)
    requires p != DONE_PAYLOAD && !Enveloped(p, TEXT_OPEN) && Enveloped(p, ERROR_OPEN)
    requires Unescape(p[|ERROR_OPEN|..|p| - |CLOSE|]) == Some(t)
    ensures DecodePayload(p) == Some(ErrorFrame(t))
  {
  }

  lemma DecodeErrorPayload(t: string)
    ensures DecodePayload(Payload(ErrorFrame(t))) == Some(ErrorFrame(t))
  {
    ErrorPayloadEnvelope(t);
    UnescapeEscape(t);
    DecodeErrorPayloadOf(Payload(ErrorFrame(t)), t);
  }

  /** Every frame decodes back to itself. */
  lemma DecodeEncode(f: Frame)
    ensures DecodeFrame(Encode(f)) == Some(f)
  {
    DecodeFramed(Payload(f));
    match f
    case DoneFrame =>
    case TextFrame(t) => DecodeTextPayload(t);
    case ErrorFrame(t) => DecodeErrorPayload(t);
  }

  lemma LineEndOfFrame(f: Frame, rest: string)
    ensures LineEnd(Encode(f) + rest) == |FIELD| + |Payload(f)|
    ensures (Encode(f) + rest)[|FIELD| + |Payload(f)| + 1] == '\n'
  {
    var s := Encode(f) + rest;
    var k := |FIELD| + |Payload(f)|;
    PayloadHasNoLineBreak(f);
    assert s[k] == '\n';
    forall i | 0 <= i < k ensures s[i] != '\n' {
      if i >= |FIELD| {
        assert s[i] == Payload(f)[i - |FIELD|];
      }
    }
    LineEndIsFirst(s, k);
  }

  lemma {:induction false} LineEndIsFirst(s: string, k: nat)
    requires k < |s| && s[k] == '\n'
    requires forall i :: 0 <= i < k ==> s[i] != '\n'
    ensures LineEnd(s) == k
  {
    if k > 0 {
      LineEndIsFirst(s[1..], k - 1);
    }
  }

  ghost predicate EncodeAllSnocHolds(fs: seq<Frame>, f: Frame)
  {
    EncodeAll(fs + [f]) == EncodeAll(fs) + Encode(f)
  }

  lemma EncodeAllSnocStep(fs: seq<Frame>, f: Frame)
    requires fs != [] && EncodeAllSnocHolds(fs[1..], f)
    ensures EncodeAllSnocHolds(fs, f)
  {
    assert (fs + [f])[1..] == fs[1..] + [f];
    assert (fs + [f])[0] == fs[0];
    AppendAssoc(Encode(fs[0]), EncodeAll(fs[1..]), Encode(f));
  }

  /** Encoding one more frame appends its encoding. */
  lemma EncodeAllSnoc(fs: seq<Frame>, f: Frame)
    ensures EncodeAll(fs + [f]) == EncodeAll(fs) + Encode(f)
  {
    assert fs[|fs|..] + [f] == [f];
    assert EncodeAllSnocHolds(fs[|fs|..], f);
    var k := |fs|;
    while k > 0
      invariant 0 <= k <= |fs| && EncodeAllSnocHolds(fs[k..], f)
    {
      k := k - 1;
      assert fs[k..][1..] == fs[k + 1..];
      EncodeAllSnocStep(fs[k..], f);
    }
    assert fs[0..] == fs;
  }

  /** Reading one frame off the front of a stream: when `e` is a well-formed frame ending at
      the first line feed pair, the stream decodes to that frame followed by the rest. */
  lemma DecodeStreamFront(e: string, rest: string, f: Frame)
    requires |e| >= 2 && LineEnd(e + rest) == |e| - 2 && e[|e| - 1] == '\n'
    requires DecodeFrame(e) == Some(f)
    ensures DecodeStream(e + rest)
         == if DecodeStream(rest).Some? then Some([f] + DecodeStream(rest).value) else None
  {
    var s := e + rest;
    assert s[|e| - 1] == e[|e| - 1];
    assert s[..|e|] == e;
    assert s[|e|..] == rest;
  }

  /** A client splitting the relay's output at blank lines reads back exactly the frames
      that were written, one per frame, in order. */
  lemma {:induction false} DecodeEncodeAll(fs: seq<Frame>)
    ensures DecodeStream(EncodeAll(fs)) == Some(fs)
  {
    if fs != [] {
      var e, rest := Encode(fs[0]), EncodeAll(fs[1..]);
      assert EncodeAll(fs) == e + rest;
      LineEndOfFrame(fs[0], rest);
      assert e[|e| - 1] == '\n';
      DecodeEncode(fs[0]);
      DecodeStreamFront(e, rest, fs[0]);
      DecodeEncodeAll(fs[1..]);
      assert [fs[0]] + fs[1..] == fs;
    }
  }
}
