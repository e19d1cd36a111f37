/**
 * The collaborators the chat endpoint drives: the ModelSocket connection, the
 * model session, the reader of the generation stream and the controller of the
 * SSE ReadableStream. Their internals are not modelled; each records the calls
 * made on it, in order, in one shared Trace, and keeps the state the endpoint's
 * behaviour depends on (the session's append log, the reader's position and
 * lock, the controller's stream state).
 */
module Effects {
  import opened Wrappers

  /** One unit of model output, as the generation stream yields it. */
  datatype Chunk = Chunk(text: string, hidden: bool)

  /** The read numbered `at` (from 0) rejects; `reason` is the error's string form. */
  datatype ReadFailure = ReadFailure(at: nat, reason: string)

  /** What the backend produces for one generation: its chunks, and possibly a failing read. */
  datatype Generation = Generation(chunks: seq<Chunk>, failure: Option<ReadFailure>)

  /** reader.read(): `{done: false, value}`, `{done: true}`, or a rejected promise. */
  datatype ReadResult = Value(chunk: Chunk) | Done | Rejected(reason: string)

  /** One entry of the session's conversation: `append(text, {role})`. */
  datatype Entry = Entry(text: string, role: string)

  datatype StreamState = Readable | Closed | Errored

  /** An observable call on a collaborator. */
  datatype Event =
    | Connected(url: string)
    | Opened(model: string)
    | Appended(entry: Entry)
    | GenStarted(role: string)
    | Enqueued(data: string)
    | StreamErrored(reason: string)
    | LockReleased
    | CloseCalled
    | SocketClosed

  function Count(events: seq<Event>, e: Event): (n: nat)
    ensures n <= |events|
  {
    if events == [] then 0
    else Count(events[..|events| - 1], e) + (if events[|events| - 1] == e then 1 else 0)
  }

  lemma {:induction false} CountAppend(a: seq<Event>, b: seq<Event>, e: Event)
    ensures Count(a + b, e) == Count(a, e) + Count(b, e)
    decreases |b|
  {
    if b != [] {
      var n := |b| - 1;
      assert (a + b)[..|a + b| - 1] == a + b[..n];
      assert (a + b)[|a + b| - 1] == b[n];
      CountAppend(a, b[..n], e);
      assert Count(a + b, e) == Count(a + b[..n], e) + (if b[n] == e then 1 else 0);
    } else {
      assert a + b == a;
    }
  }

  /** The result of `reader.read()` when `k` reads have already delivered a chunk. */
  function ReadAt(g: Generation, k: nat): ReadResult
  {
    if g.failure.Some? && g.failure.value.at == k then Rejected(g.failure.value.reason)
    else if k < |g.chunks| then Value(g.chunks[k])
    else Done
  }

  class Trace {
    var events: seq<Event>

    constructor ()
      ensures events == []
    {
      events := [];
    }
  }

  /** A ModelSocket connection. */
  class Socket {
    const url: string
    const trace: Trace

    /** ModelSocket.connect(url) */
    constructor Connect(url: string, trace: Trace)
      modifies trace
      ensures this.url == url && this.trace == trace
      ensures trace.events == old(trace.events) + [Connected(url)]
    {
      this.url := url;
      this.trace := trace;
      new;
      trace.events := trace.events + [Connected(url)];
    }

    /** socket.open(model): a fresh session bound to `model`, with an empty conversation. */
    method Open(model: string) returns (session: Session)
      modifies trace
      ensures fresh(session)
      ensures session.model == model && session.trace == trace && session.log == []
      ensures trace.events == old(trace.events) + [Opened(model)]
    {
      session := new Session(model, trace);
      trace.events := trace.events + [Opened(model)];
    }

    /** socket.close() */
    method Close()
      modifies trace
      ensures trace.events == old(trace.events) + [SocketClosed]
    {
      trace.events := trace.events + [SocketClosed];
    }
  }

  /** A model session: the conversation the model will continue. */
  class Session {
    const model: string
    const trace: Trace
    var log: seq<Entry>

    constructor (model: string, trace: Trace)
      ensures this.model == model && this.trace == trace && log == []
    {
      this.model := model;
      this.trace := trace;
      log := [];
    }

    /** session.append(text, {role}) */
    method Append(text: string, role: string)
      modifies this`log, trace
      ensures log == old(log) + [Entry(text, role)]
      ensures trace.events == old(trace.events) + [Appended(Entry(text, role))]
    {
      log := log + [Entry(text, role)];
      trace.events := trace.events + [Appended(Entry(text, role))];
    }

    /** session.gen({role}): starts the generation; its output is the backend's. */
    method Gen(role: string)
      modifies trace
      ensures trace.events == old(trace.events) + [GenStarted(role)]
    {
      trace.events := trace.events + [GenStarted(role)];
    }
  }

  /** The reader of a generation stream. */
  class Reader {
    const source: Generation
    const trace: Trace
    var pos: nat
    var locked: bool

    /** stream.getReader(): a locked reader at the start of the stream. */
    constructor (source: Generation, trace: Trace)
      ensures this.source == source && this.trace == trace && pos == 0 && locked
    {
      this.source := source;
      this.trace := trace;
      pos := 0;
      locked := true;
    }

    /** reader.read() */
    method Read() returns (r: ReadResult)
      requires locked
      modifies this`pos
      ensures r == ReadAt(source, old(pos))
      ensures pos == if r.Value? then old(pos) + 1 else old(pos)
    {
      r := ReadAt(source, pos);
      if r.Value? {
        pos := pos + 1;
      }
    }

    /** reader.releaseLock() */
    method ReleaseLock()
      modifies this`locked, trace
      ensures !locked
      ensures trace.events == old(trace.events) + [LockReleased]
    {
      locked := false;
      trace.events := trace.events + [LockReleased];
    }
  }

  /** The controller of the SSE ReadableStream, with the state rules of the WHATWG Streams standard. */
  class Controller {
    const trace: Trace
    var state: StreamState

    constructor (trace: Trace)
      ensures this.trace == trace && state == Readable
    {
      this.trace := trace;
      state := Readable;
    }

    /** controller.enqueue(chunk) */
    method Enqueue(data: string)
      requires state == Readable
      modifies trace
      ensures trace.events == old(trace.events) + [Enqueued(data)]
    {
      trace.events := trace.events + [Enqueued(data)];
    }

    /** controller.error(e): errors a readable stream, does nothing to one that is not. */
    method Error(reason: string)
      modifies this`state, trace
      ensures state == if old(state) == Readable then Errored else old(state)
      ensures trace.events == old(trace.events) + [StreamErrored(reason)]
    {
      if state == Readable {
        state := Errored;
      }
      trace.events := trace.events + [StreamErrored(reason)];
    }

    /** controller.close(): closes a readable stream; on any other stream it throws (`ok` false). */
    method Close() returns (ok: bool)
      modifies this`state, trace
      ensures ok == (old(state) == Readable)
      ensures state == if ok then Closed else old(state)
      ensures trace.events == old(trace.events) + [CloseCalled]
    {
      ok := state == Readable;
      if ok {
        state := Closed;
      }
      trace.events := trace.events + [CloseCalled];
    }
  }
}
