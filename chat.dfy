/**
 * The POST handler of the chat endpoint (src/app/api/chat/route.ts): validate
 * the body, answer 400 when it is not acceptable, otherwise connect to the
 * ModelSocket backend, open the 8B model, seed the conversation with the system
 * prompt and the client's messages, start an assistant generation and relay it
 * to the client as Server-Sent Events.
 */
module Chat {
  import opened Wrappers
  import opened Seqs
  import opened Validation
  import opened Effects
  import opened Sse
  import opened Relay

  const SYSTEM_PROMPT: string := "You are a helpful assistant."
  const LLAMA_8B: string := "meta/llama3.1-8b-instruct-free"
  const DEFAULT_URL: string := "wss://models.mixlayer.ai/ws"

  /** The headers of the streaming response. */
  const STREAM_HEADERS: map<string, string> :=
    map["X-Accel-Buffering" := "no", "Content-Type" := "text/event-stream", "Cache-Control" := "no-cache"]

  /** What POST returns: the validation error response, or the SSE stream. */
  datatype Reply = ErrorReply(response: Response) | EventStream(headers: map<string, string>)

  /** `process.env.MODELSOCKET_URL || DEFAULT_URL`: an unset or empty variable falls back. */
  function BackendUrl(env: Option<string>): (url: string)
    ensures env.Some? && env.value != [] ==> url == env.value
    ensures env.None? || env.value == [] ==> url == DEFAULT_URL
    ensures url != []
  {
    if env.Some? && env.value != [] then env.value else DEFAULT_URL
  }

  /** The conversation the session is seeded with: the system prompt, then every message. */
  function SeedEntries(ms: seq<Message>): seq<Entry>
  {
    if ms == [] then [Entry(SYSTEM_PROMPT, "system")]
    else SeedEntries(ms[..|ms| - 1]) + [Entry(ms[|ms| - 1].text, ms[|ms| - 1].role)]
  }

  /** The append calls for a sequence of entries. */
  function Appends(es: seq<Entry>): seq<Event>
  {
    if es == [] then [] else Appends(es[..|es| - 1]) + [Appended(es[|es| - 1])]
  }

  /** The reply POST gives for a request body. */
  function PostReply(raw: RawBody): Reply
  {
    match ValidateBody(raw)
    case Failure(response) => ErrorReply(response)
    case Success(_) => EventStream(STREAM_HEADERS)
  }

  /** Every call POST makes on the backend and the response stream, in order. */
  function PostEvents(raw: RawBody, env: Option<string>, output: Generation): seq<Event>
  {
    match ValidateBody(raw)
    case Failure(_) => []
    case Success(body) => PostHead(body.messages, env) + RelayEvents(output)
  }

  /** The calls POST as written makes: those of the relay as written after the same head. */
  function PostEventsAsWritten(raw: RawBody, env: Option<string>, output: Generation): seq<Event>
  {
    match ValidateBody(raw)
    case Failure(_) => []
    case Success(body) => PostHead(body.messages, env) + RelayEventsAsWritten(output)
  }

  /** The calls before the relay: connect, open, seed, gen. */
  function PostHead(ms: seq<Message>, env: Option<string>): seq<Event>
  {
    [Connected(BackendUrl(env)), Opened(LLAMA_8B)] + Appends(SeedEntries(ms)) + [GenStarted("assistant")]
  }

  lemma SeedEntriesPrefix(ms: seq<Message>, i: nat)
    requires i < |ms|
    ensures SeedEntries(ms[..i + 1]) == SeedEntries(ms[..i]) + [Entry(ms[i].text, ms[i].role)]
  {
    assert ms[..i + 1][..i] == ms[..i];
  }

  lemma AppendsSnoc(es: seq<Entry>, e: Entry)
    ensures Appends(es + [e]) == Appends(es) + [Appended(e)]
  {
    assert (es + [e])[..|es|] == es;
  }

  /** The system append, then one append per message, in the order received. */
  method Seed(session: Session, ms: seq<Message>)
    modifies session`log, session.trace
    ensures session.log == old(session.log) + SeedEntries(ms)
    ensures session.trace.events == old(session.trace.events) + Appends(SeedEntries(ms))
  {
    session.Append(SYSTEM_PROMPT, "system");
    assert ms[..0] == [];
    AppendsSnoc([], Entry(SYSTEM_PROMPT, "system"));
    for i := 0 to |ms|
      invariant session.log == old(session.log) + SeedEntries(ms[..i])
      invariant session.trace.events == old(session.trace.events) + Appends(SeedEntries(ms[..i]))
    {
      SeedEntriesPrefix(ms, i);
      AppendsSnoc(SeedEntries(ms[..i]), Entry(ms[i].text, ms[i].role));
      session.Append(ms[i].text, ms[i].role);
    }
    assert ms[..|ms|] == ms;
  }

  /** The part of POST after validation: connect, open the model, seed it, start the
      generation, and relay it, with the corrected relay or with the relay as written. */
  method Converse(messages: seq<Message>, env: Option<string>, output: Generation, trace: Trace, asWritten: bool)
    modifies trace
    ensures trace.events == old(trace.events) + PostHead(messages, env)
      + (if asWritten then RelayEventsAsWritten(output) else RelayEvents(output))
  {
    var socket := new Socket.Connect(BackendUrl(env), trace);
    var llama := socket.Open(LLAMA_8B);
    Seed(llama, messages);
    llama.Gen("assistant");
    ghost var e, a, b, c := old(trace.events), [Connected(BackendUrl(env)), Opened(LLAMA_8B)],
                            Appends(SeedEntries(messages)), [GenStarted("assistant")];
    AppendAssoc(e, a, b);
    AppendAssoc(e, a + b, c);
    assert trace.events == old(trace.events) + PostHead(messages, env);
    var controller := new Controller(trace);
    if asWritten {
      var threw := StartAsWritten(output, controller, socket);
    } else {
      Start(output, controller, socket);
    }
  }

  /** POST(request), with the corrected relay. The relay runs to completion before the reply
      is returned. */
  method Post(raw: RawBody, env: Option<string>, output: Generation, trace: Trace) returns (reply: Reply)
    modifies trace
    ensures reply == PostReply(raw)
    ensures trace.events == old(trace.events) + PostEvents(raw, env, output)
  {
    var checked := ValidateBody(raw);
    if checked.Failure? {
      return ErrorReply(checked.error);
    }
    Converse(checked.value.messages, env, output, trace, false);
    AppendAssoc(old(trace.events), PostHead(checked.value.messages, env), RelayEvents(output));
    reply := EventStream(STREAM_HEADERS);
  }

  /** POST(request) as written. The TypeError that the relay raises in its finally block only
      rejects the stream's start, which is already errored, so the reply is the same. */
  method PostAsWritten(raw: RawBody, env: Option<string>, output: Generation, trace: Trace) returns (reply: Reply)
    modifies trace
    ensures reply == PostReply(raw)
    ensures trace.events == old(trace.events) + PostEventsAsWritten(raw, env, output)
  {
    var checked := ValidateBody(raw);
    if checked.Failure? {
      return ErrorReply(checked.error);
    }
    Converse(checked.value.messages, env, output, trace, true);
    AppendAssoc(old(trace.events), PostHead(checked.value.messages, env), RelayEventsAsWritten(output));
    reply := EventStream(STREAM_HEADERS);
  }

  // ---------------------------------------------------------------------------
  // Properties of the handler.

  /** The seeded conversation is the system prompt followed by each message, role and text
      kept, in order. */
  lemma {:induction false} SeedEntriesShape(ms: seq<Message>)
    ensures |SeedEntries(ms)| == |ms| + 1
    ensures SeedEntries(ms)[0] == Entry(SYSTEM_PROMPT, "system")
    ensures forall i :: 0 <= i < |ms| ==> SeedEntries(ms)[i + 1] == Entry(ms[i].text, ms[i].role)
  {
    if ms != [] {
      var n := |ms| - 1;
      SeedEntriesShape(ms[..n]);
      assert SeedEntries(ms) == SeedEntries(ms[..n]) + [Entry(ms[n].text, ms[n].role)];
      forall i | 0 <= i < |ms| ensures SeedEntries(ms)[i + 1] == Entry(ms[i].text, ms[i].role) {
        if i < n {
          assert ms[..n][i] == ms[i];
        }
      }
    }
  }

  /** A request that fails validation gets its 400 response and never reaches the backend. */
  lemma RejectedBeforeBackend(raw: RawBody, env: Option<string>, output: Generation)
    requires ValidateBody(raw).Failure?
    ensures PostEvents(raw, env, output) == []
    ensures PostReply(raw).ErrorReply? && PostReply(raw).response.status == 400
  {
  }

  /** A body that is not JSON gets exactly the invalid-json response. */
  lemma MalformedReply()
    ensures PostReply(Malformed) == ErrorReply(InvalidJsonResponse())
  {
    MalformedRejection();
  }

  /** The entries appended in a sequence of calls, in order. */
  function AppendedEntries(events: seq<Event>): seq<Entry>
  {
    if events == [] then []
    else
      var last := events[|events| - 1];
      AppendedEntries(events[..|events| - 1]) + (if last.Appended? then [last.entry] else [])
  }

  lemma {:induction false} AppendedEntriesAppend(a: seq<Event>, b: seq<Event>)
    ensures AppendedEntries(a + b) == AppendedEntries(a) + AppendedEntries(b)
    decreases |b|
  {
    if b != [] {
      var n := |b| - 1;
      assert (a + b)[..|a + b| - 1] == a + b[..n];
      assert b[..n] + [b[n]] == b;
      AppendedEntriesAppend(a, b[..n]);
    } else {
      assert a + b == a;
    }
  }

  lemma {:induction false} AppendedEntriesOfAppends(es: seq<Entry>)
    ensures AppendedEntries(Appends(es)) == es
    decreases |es|
  {
    if es != [] {
      var n := |es| - 1;
      AppendedEntriesOfAppends(es[..n]);
      assert Appends(es)[..|Appends(es)| - 1] == Appends(es[..n]);
    }
  }

  /** A sequence of calls that appends nothing. */
  ghost predicate NoAppends(events: seq<Event>)
  {
    forall i :: 0 <= i < |events| ==> !events[i].Appended?
  }

  lemma {:induction false} AppendedEntriesNone(events: seq<Event>)
    requires NoAppends(events)
    ensures AppendedEntries(events) == []
    decreases |events|
  {
    if events != [] {
      AppendedEntriesNone(events[..|events| - 1]);
    }
  }

  lemma {:induction false} EnqueuesAppendNothing(fs: seq<Frame>)
    ensures NoAppends(Enqueues(fs))
    decreases |fs|
  {
    if fs != [] {
      var n := |fs| - 1;
      EnqueuesAppendNothing(fs[..n]);
      assert Enqueues(fs) == Enqueues(fs[..n]) + [Enqueued(Encode(fs[n]))];
    }
  }

  lemma RelayNoAppends(g: Generation)
    ensures NoAppends(RelayEvents(g))
  {
    RelayEnqueuesAreEnqueues(g);
    EnqueuesAppendNothing(RelayFrames(g));
    TailHasNoEnqueue(g);
    assert NoAppends(RelayTail(g));
  }

  /** The relay makes no append call. */
  lemma RelayAppendsNothing(g: Generation)
    ensures AppendedEntries(RelayEvents(g)) == []
  {
    RelayNoAppends(g);
    AppendedEntriesNone(RelayEvents(g));
  }

  /** Before the relay, exactly the seed is appended. */
  lemma HeadEntries(ms: seq<Message>, env: Option<string>)
    ensures AppendedEntries(PostHead(ms, env)) == SeedEntries(ms)
  {
    var es := SeedEntries(ms);
    var opening: seq<Event> := [Connected(BackendUrl(env)), Opened(LLAMA_8B)];
    var gen: seq<Event> := [GenStarted("assistant")];
    AppendedEntriesAppend(opening + Appends(es), gen);
    AppendedEntriesAppend(opening, Appends(es));
    AppendedEntriesNone(opening);
    AppendedEntriesNone(gen);
    AppendedEntriesOfAppends(es);
  }

  /** For an accepted request the model's conversation is exactly the system prompt and the
      client's messages: nothing else is appended, before or during the generation. */
  lemma SessionSeededExactly(raw: RawBody, env: Option<string>, output: Generation)
    requires ValidateBody(raw).Success?
    ensures AppendedEntries(PostEvents(raw, env, output)) == SeedEntries(ValidateBody(raw).value.messages)
  {
    var ms := ValidateBody(raw).value.messages;
    AppendedEntriesAppend(PostHead(ms, env), RelayEvents(output));
    HeadEntries(ms, env);
    RelayAppendsNothing(output);
  }

  lemma {:induction false} AppendsShape(es: seq<Entry>)
    ensures |Appends(es)| == |es|
    ensures forall i :: 0 <= i < |es| ==> Appends(es)[i] == Appended(es[i])
    decreases |es|
  {
    if es != [] {
      var n := |es| - 1;
      AppendsShape(es[..n]);
      assert Appends(es) == Appends(es[..n]) + [Appended(es[n])];
    }
  }

  lemma HeadShape(ms: seq<Message>, env: Option<string>)
    ensures var head := PostHead(ms, env);
      && |head| == |ms| + 4
      && head[0] == Connected(BackendUrl(env))
      && head[1] == Opened(LLAMA_8B)
      && head[2] == Appended(Entry(SYSTEM_PROMPT, "system"))
      && (forall i :: 0 <= i < |ms| ==> head[i + 3] == Appended(Entry(ms[i].text, ms[i].role)))
      && head[|ms| + 3] == GenStarted("assistant")
  {
    var es := SeedEntries(ms);
    SeedEntriesShape(ms);
    AppendsShape(es);
    var head := PostHead(ms, env);
    forall i | 0 <= i < |ms| ensures head[i + 3] == Appended(Entry(ms[i].text, ms[i].role)) {
      assert head[i + 3] == Appends(es)[i + 1];
    }
  }

  /** For an accepted request: connect to the configured backend, open the 8B model, append
      the seed, start the assistant generation, and only then relay. */
  lemma AcceptedCallOrder(raw: RawBody, env: Option<string>, output: Generation)
    requires ValidateBody(raw).Success?
    ensures var ms := ValidateBody(raw).value.messages;
      var ev := PostEvents(raw, env, output);
      var g := |ms| + 3;
      && |ev| > g
      && ev[0] == Connected(BackendUrl(env))
      && ev[1] == Opened(LLAMA_8B)
      && ev[2] == Appended(Entry(SYSTEM_PROMPT, "system"))
      && (forall i :: 0 <= i < |ms| ==> ev[i + 3] == Appended(Entry(ms[i].text, ms[i].role)))
      && ev[g] == GenStarted("assistant")
      && ev[g + 1..] == RelayEvents(output)
  {
    var ms := ValidateBody(raw).value.messages;
    var head, rest := PostHead(ms, env), RelayEvents(output);
    HeadShape(ms, env);
    PrefixIndex(head, rest);
  }

  lemma PrefixIndex(head: seq<Event>, rest: seq<Event>)
    ensures forall i :: 0 <= i < |head| ==> (head + rest)[i] == head[i]
    ensures (head + rest)[|head|..] == rest
  {
  }

  lemma {:induction false} NoSocketClose(events: seq<Event>)
    requires forall i :: 0 <= i < |events| ==> events[i] != SocketClosed
    ensures Count(events, SocketClosed) == 0
    decreases |events|
  {
    if events != [] {
      NoSocketClose(events[..|events| - 1]);
    }
  }

  lemma HeadHasNoSocketClose(ms: seq<Message>, env: Option<string>)
    ensures Count(PostHead(ms, env), SocketClosed) == 0
  {
    var head := PostHead(ms, env);
    HeadShape(ms, env);
    forall i | 0 <= i < |head| ensures head[i] != SocketClosed {
      if 3 <= i < |ms| + 3 {
        assert head[(i - 3) + 3] == Appended(Entry(ms[i - 3].text, ms[i - 3].role));
      }
    }
    NoSocketClose(head);
  }

  /** For an accepted request the corrected handler closes the socket exactly once, as the
      last call. */
  lemma SocketClosedOnce(raw: RawBody, env: Option<string>, output: Generation)
    requires ValidateBody(raw).Success?
    ensures var ev := PostEvents(raw, env, output);
      Count(ev, SocketClosed) == 1 && ev[|ev| - 1] == SocketClosed
  {
    var ms := ValidateBody(raw).value.messages;
    var head, rest := PostHead(ms, env), RelayEvents(output);
    HeadHasNoSocketClose(ms, env);
    CountAppend(head, rest, SocketClosed);
    CleanupOnEveryPath(output);
    assert rest[|rest| - 1] == rest[|rest| - 3..][2] == SocketClosed;
    assert (head + rest)[|head + rest| - 1] == rest[|rest| - 1];
  }

  /** For an accepted request POST as written closes the socket once when the generation
      ends normally and never when a read rejects. */
  lemma SocketClosedAsWritten(raw: RawBody, env: Option<string>, output: Generation)
    requires ValidateBody(raw).Success?
    ensures Count(PostEventsAsWritten(raw, env, output), SocketClosed) == if Fails(output) then 0 else 1
  {
    var ms := ValidateBody(raw).value.messages;
    var head, rest := PostHead(ms, env), RelayEventsAsWritten(output);
    HeadHasNoSocketClose(ms, env);
    CountAppend(head, rest, SocketClosed);
    if Fails(output) {
      SocketLeakAsWritten(output);
    } else {
      CompletedRelayAsWritten(output);
      CleanupOnEveryPath(output);
    }
  }
}
