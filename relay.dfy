/**
 * The SSE relay: the `start(controller)` callback of the response stream in
 * src/app/api/chat/route.ts. It draws chunks from the generation reader,
 * drops hidden ones, enqueues one text frame per other chunk, ends with a done
 * frame or, when a read rejects, with an error frame and controller.error,
 * and in its `finally` block releases the reader, closes the controller and
 * closes the socket.
 *
 * The specification functions below give the calls the relay makes as a
 * function of what the backend produces; Start is proved against them and the
 * lemmas state the relay's guarantees about them.
 */
module Relay {
  import opened Wrappers
  import opened Seqs
  import opened Sse
  import opened Effects

  /** A read rejects before the stream would have reported the end. */
  predicate Fails(g: Generation)
  {
    g.failure.Some? && g.failure.value.at <= |g.chunks|
  }

  /** How many chunks the relay draws before the stream ends or a read rejects. */
  function DrawnCount(g: Generation): (n: nat)
    ensures n <= |g.chunks|
  {
    if Fails(g) then g.failure.value.at else |g.chunks|
  }

  function Drawn(g: Generation): seq<Chunk>
  {
    g.chunks[..DrawnCount(g)]
  }

  function FrameOf(c: Chunk): seq<Frame>
  {
    if c.hidden then [] else [TextFrame(c.text)]
  }

  /** The text frames written for the chunks `cs`, drawn in order. */
  function TextFrames(cs: seq<Chunk>): seq<Frame>
  {
    if cs == [] then [] else TextFrames(cs[..|cs| - 1]) + FrameOf(cs[|cs| - 1])
  }

  /** The frame that ends the output. */
  function Terminal(g: Generation): Frame
  {
    if Fails(g) then ErrorFrame(g.failure.value.reason) else DoneFrame
  }

  /** Every frame the relay enqueues, in order. */
  function RelayFrames(g: Generation): seq<Frame>
  {
    TextFrames(Drawn(g)) + [Terminal(g)]
  }

  function Enqueues(fs: seq<Frame>): seq<Event>
  {
    if fs == [] then [] else Enqueues(fs[..|fs| - 1]) + [Enqueued(Encode(fs[|fs| - 1]))]
  }

  /** The enqueue calls made for one drawn chunk. */
  function ChunkEvents(c: Chunk): seq<Event>
  {
    if c.hidden then [] else [Enqueued(Encode(TextFrame(c.text)))]
  }

  /** The enqueue calls the loop makes for the first `n` chunks of `cs`. */
  function TextEvents(cs: seq<Chunk>, n: nat): seq<Event>
    requires n <= |cs|
  {
    if n == 0 then [] else TextEvents(cs, n - 1) + ChunkEvents(cs[n - 1])
  }

  /** The `finally` block: releaseLock, then controller.close, then socket.close. */
  const CLEANUP: seq<Event> := [LockReleased, CloseCalled, SocketClosed]

  /** The calls after the terminal frame is enqueued, with a failing controller.close absorbed. */
  function RelayTail(g: Generation): seq<Event>
  {
    (if Fails(g) then [StreamErrored(g.failure.value.reason)] else []) + CLEANUP
  }

  /** The calls after the terminal frame is enqueued, as written: on the error path
      controller.close throws and socket.close is never reached. */
  function RelayTailAsWritten(g: Generation): seq<Event>
  {
    if Fails(g) then [StreamErrored(g.failure.value.reason), LockReleased, CloseCalled] else CLEANUP
  }

  /** The enqueue calls of the relay: the loop's, then the terminal frame's. */
  function RelayEnqueues(g: Generation): seq<Event>
  {
    TextEvents(g.chunks, DrawnCount(g)) + [Enqueued(Encode(Terminal(g)))]
  }

  /** The calls of the relay, with a failing controller.close absorbed. */
  function RelayEvents(g: Generation): seq<Event>
  {
    RelayEnqueues(g) + RelayTail(g)
  }

  /** The calls of the relay as written. */
  function RelayEventsAsWritten(g: Generation): seq<Event>
  {
    RelayEnqueues(g) + RelayTailAsWritten(g)
  }

  /** The bytes a client receives: the enqueued data, concatenated. */
  function Body(events: seq<Event>): string
  {
    if events == [] then []
    else
      var last := events[|events| - 1];
      Body(events[..|events| - 1]) + (if last.Enqueued? then last.data else [])
  }

  lemma EnqueuesSnoc(fs: seq<Frame>, f: Frame)
    ensures Enqueues(fs + [f]) == Enqueues(fs) + [Enqueued(Encode(f))]
  {
    assert (fs + [f])[..|fs|] == fs;
  }

  lemma TextFramesSnoc(cs: seq<Chunk>, c: Chunk)
    ensures TextFrames(cs + [c]) == TextFrames(cs) + FrameOf(c)
  {
    assert (cs + [c])[..|cs|] == cs;
  }

  lemma TextFramesPrefix(cs: seq<Chunk>, n: nat)
    requires 0 < n <= |cs|
    ensures TextFrames(cs[..n]) == TextFrames(cs[..n - 1]) + FrameOf(cs[n - 1])
  {
    assert cs[..n][..n - 1] == cs[..n - 1];
  }

  lemma TextEventsNext(cs: seq<Chunk>, k: nat)
    requires k < |cs|
    ensures TextEvents(cs, k + 1) == TextEvents(cs, k) + ChunkEvents(cs[k])
  {
  }

  // ---------------------------------------------------------------------------
  // The relay loop and the start callback.

  /** The `while (true)` loop: reads until the stream ends or a read rejects. */
  method Drain(reader: Reader, controller: Controller) returns (err: Option<string>)
    requires reader.locked && reader.pos == 0
    requires controller.state == Readable
    modifies reader`pos, controller.trace
    ensures err == if Fails(reader.source) then Some(reader.source.failure.value.reason) else None
    ensures controller.trace.events
         == old(controller.trace.events) + TextEvents(reader.source.chunks, DrawnCount(reader.source))
  {
    var g := reader.source;
    while true
      invariant reader.locked && controller.state == Readable
      invariant reader.pos <= |g.chunks|
      invariant g.failure.Some? ==> reader.pos <= g.failure.value.at
      invariant controller.trace.events == old(controller.trace.events) + TextEvents(g.chunks, reader.pos)
      decreases |g.chunks| - reader.pos
    {
      var r := reader.Read();
      match r {
        case Done =>
          assert !Fails(g) && reader.pos == DrawnCount(g);
          return None;
        case Rejected(reason) =>
          assert Fails(g) && reader.pos == DrawnCount(g);
          return Some(reason);
        case Value(c) =>
          TextEventsNext(g.chunks, reader.pos - 1);
          Forward(controller, c);
      }
    }
  }

  /** The loop body for one chunk: skip it when hidden, otherwise enqueue its text frame. */
  method Forward(controller: Controller, c: Chunk)
    requires controller.state == Readable
    modifies controller.trace
    ensures controller.trace.events == old(controller.trace.events) + ChunkEvents(c)
  {
    if !c.hidden {
      controller.Enqueue(Encode(TextFrame(c.text)));
    }
  }

  /** The calls that end the `try` block or make up the `catch` block: the terminal frame,
      then controller.error when a read rejected. */
  function Conclusion(g: Generation): seq<Event>
  {
    [Enqueued(Encode(Terminal(g)))] + (if Fails(g) then [StreamErrored(g.failure.value.reason)] else [])
  }

  /** After the loop: enqueue the done frame, or, when a read rejected, the error frame and
      controller.error. */
  method Conclude(g: Generation, err: Option<string>, controller: Controller)
    requires controller.state == Readable
    requires err == if Fails(g) then Some(g.failure.value.reason) else None
    modifies controller`state, controller.trace
    ensures controller.trace.events == old(controller.trace.events) + Conclusion(g)
    ensures controller.state == if Fails(g) then Errored else Readable
  {
    if err.None? {
      controller.Enqueue(Encode(DoneFrame));
    } else {
      controller.Enqueue(Encode(ErrorFrame(err.value)));
      controller.Error(err.value);
    }
  }

  lemma RelayEventsParts(g: Generation)
    ensures RelayEvents(g) == TextEvents(g.chunks, DrawnCount(g)) + Conclusion(g) + CLEANUP
  {
    var t, c := TextEvents(g.chunks, DrawnCount(g)), Conclusion(g);
    var x: seq<Event> := [Enqueued(Encode(Terminal(g)))];
    var m: seq<Event> := if Fails(g) then [StreamErrored(g.failure.value.reason)] else [];
    assert RelayEvents(g) == (t + x) + (m + CLEANUP);
    AppendAssoc(t + x, m, CLEANUP);
    AppendAssoc(t, x, m);
  }

  lemma RelayEventsAsWrittenParts(g: Generation)
    requires Fails(g)
    ensures RelayEventsAsWritten(g) == TextEvents(g.chunks, DrawnCount(g)) + Conclusion(g) + CLEANUP[..2]
  {
    var t := TextEvents(g.chunks, DrawnCount(g));
    var x: seq<Event> := [Enqueued(Encode(Terminal(g)))];
    var m: seq<Event> := [StreamErrored(g.failure.value.reason)];
    assert RelayTailAsWritten(g) == m + CLEANUP[..2];
    assert RelayEventsAsWritten(g) == (t + x) + (m + CLEANUP[..2]);
    AppendAssoc(t + x, m, CLEANUP[..2]);
    AppendAssoc(t, x, m);
  }

  /** start(controller), with a throwing controller.close() absorbed so that the socket is
      closed on every path. */
  method Start(output: Generation, controller: Controller, socket: Socket)
    requires controller.state == Readable && socket.trace == controller.trace
    modifies controller`state, controller.trace
    ensures controller.trace.events == old(controller.trace.events) + RelayEvents(output)
    ensures controller.state == if Fails(output) then Errored else Closed
  {
    var reader := new Reader(output, controller.trace);
    var err := Drain(reader, controller);
    Conclude(output, err, controller);
    ghost var before := controller.trace.events;
    reader.ReleaseLock();
    var closed := controller.Close();
    socket.Close();
    assert controller.trace.events == before + CLEANUP;
    RelayEventsParts(output);
    AppendAssoc(old(controller.trace.events), TextEvents(output.chunks, DrawnCount(output)), Conclusion(output));
    AppendAssoc(old(controller.trace.events), TextEvents(output.chunks, DrawnCount(output)) + Conclusion(output), CLEANUP);
  }

  /** start(controller) as written: `threw` is the TypeError that controller.close() raises
      on the errored stream, which leaves the finally block before socket.close(). */
  method StartAsWritten(output: Generation, controller: Controller, socket: Socket) returns (threw: bool)
    requires controller.state == Readable && socket.trace == controller.trace
    modifies controller`state, controller.trace
    ensures threw == Fails(output)
    ensures controller.trace.events == old(controller.trace.events) + RelayEventsAsWritten(output)
  {
    var reader := new Reader(output, controller.trace);
    var err := Drain(reader, controller);
    Conclude(output, err, controller);
    ghost var before := controller.trace.events;
    AppendAssoc(old(controller.trace.events), TextEvents(output.chunks, DrawnCount(output)), Conclusion(output));
    reader.ReleaseLock();
    var closed := controller.Close();
    if !closed {
      assert controller.trace.events == before + CLEANUP[..2];
      RelayEventsAsWrittenParts(output);
      AppendAssoc(old(controller.trace.events), TextEvents(output.chunks, DrawnCount(output)) + Conclusion(output), CLEANUP[..2]);
      return true;
    }
    socket.Close();
    assert controller.trace.events == before + CLEANUP;
    RelayEventsParts(output);
    AppendAssoc(old(controller.trace.events), TextEvents(output.chunks, DrawnCount(output)) + Conclusion(output), CLEANUP);
    threw := false;
  }

  // ---------------------------------------------------------------------------
  // Guarantees of the relay.

  lemma {:induction false} EnqueuesAppend(fs: seq<Frame>, gs: seq<Frame>)
    ensures Enqueues(fs + gs) == Enqueues(fs) + Enqueues(gs)
    decreases |gs|
  {
    if gs != [] {
      var n := |gs| - 1;
      assert fs + gs == (fs + gs[..n]) + [gs[n]];
      assert gs == gs[..n] + [gs[n]];
      EnqueuesSnoc(fs + gs[..n], gs[n]);
      EnqueuesSnoc(gs[..n], gs[n]);
      EnqueuesAppend(fs, gs[..n]);
    } else {
      assert fs + gs == fs;
    }
  }

  lemma ChunkEventsAreEnqueues(c: Chunk)
    ensures ChunkEvents(c) == Enqueues(FrameOf(c))
  {
    if !c.hidden {
      EnqueuesSnoc([], TextFrame(c.text));
    }
  }

  /** After `n` chunks the loop's enqueue calls are those of the text frames of those chunks. */
  ghost predicate EventsMatchFrames(cs: seq<Chunk>, n: nat)
    requires n <= |cs|
  {
    TextEvents(cs, n) == Enqueues(TextFrames(cs[..n]))
  }

  lemma EventsMatchFramesStep(cs: seq<Chunk>, n: nat)
    requires 0 < n <= |cs| && EventsMatchFrames(cs, n - 1)
    ensures EventsMatchFrames(cs, n)
  {
    var c := cs[n - 1];
    ChunkEventsAreEnqueues(c);
    EnqueuesAppend(TextFrames(cs[..n - 1]), FrameOf(c));
    TextFramesPrefix(cs, n);
  }

  /** The loop's enqueue calls are those of the text frames of the chunks it drew. */
  lemma TextEventsAreEnqueues(cs: seq<Chunk>, n: nat)
    requires n <= |cs|
    ensures TextEvents(cs, n) == Enqueues(TextFrames(cs[..n]))
  {
    assert cs[..0] == [];
    for k := 0 to n
      invariant EventsMatchFrames(cs, k)
    {
      EventsMatchFramesStep(cs, k + 1);
    }
  }

  /** The relay's enqueue calls are those of its frames, in order. */
  lemma RelayEnqueuesAreEnqueues(g: Generation)
    ensures RelayEnqueues(g) == Enqueues(RelayFrames(g))
  {
    TextEventsAreEnqueues(g.chunks, DrawnCount(g));
    EnqueuesSnoc(TextFrames(Drawn(g)), Terminal(g));
  }

  /** Frames are written per chunk: drawing `a` then `b` writes the frames of `a` then those
      of `b`, with nothing coalesced or split across chunks. */
  lemma {:induction false} TextFramesAppend(a: seq<Chunk>, b: seq<Chunk>)
    ensures TextFrames(a + b) == TextFrames(a) + TextFrames(b)
    decreases |b|
  {
    if b != [] {
      var n := |b| - 1;
      assert a + b == (a + b[..n]) + [b[n]];
      assert b == b[..n] + [b[n]];
      TextFramesSnoc(a + b[..n], b[n]);
      TextFramesSnoc(b[..n], b[n]);
      TextFramesAppend(a, b[..n]);
    } else {
      assert a + b == a;
    }
  }

  /** A hidden chunk changes nothing in the output. */
  lemma HiddenChunkIgnored(a: seq<Chunk>, c: Chunk, b: seq<Chunk>)
    requires c.hidden
    ensures TextFrames(a + [c] + b) == TextFrames(a + b)
  {
    TextFramesAppend(a + [c], b);
    TextFramesAppend(a, b);
    TextFramesSnoc(a, c);
  }

  /** Positions of the chunks that are not hidden, in increasing order. */
  ghost function VisibleIndices(cs: seq<Chunk>): seq<nat>
  {
    if cs == [] then []
    else VisibleIndices(cs[..|cs| - 1]) + (if cs[|cs| - 1].hidden then [] else [|cs| - 1])
  }

  /** The text frames of `cs` are exactly its chunks that are not hidden, one frame per chunk
      with its text unchanged, in the order drawn. */
  ghost predicate FramesAreVisibleChunks(cs: seq<Chunk>)
  {
    var fs, idx := TextFrames(cs), VisibleIndices(cs);
    && |fs| == |idx|
    && (forall j :: 0 <= j < |idx| ==>
          idx[j] < |cs| && !cs[idx[j]].hidden && fs[j] == TextFrame(cs[idx[j]].text))
    && (forall j, k :: 0 <= j < k < |idx| ==> idx[j] < idx[k])
    && (forall i :: 0 <= i < |cs| && !cs[i].hidden ==> i in idx)
  }

  lemma FramesAreVisibleChunksStep(cs: seq<Chunk>)
    requires cs != [] && FramesAreVisibleChunks(cs[..|cs| - 1])
    ensures FramesAreVisibleChunks(cs)
  {
    var n := |cs| - 1;
    var init, c := cs[..n], cs[n];
    var fs0, idx0 := TextFrames(init), VisibleIndices(init);
    var fs, idx := TextFrames(cs), VisibleIndices(cs);
    var extra: seq<nat> := if c.hidden then [] else [n];
    assert fs == fs0 + FrameOf(c);
    assert idx == idx0 + extra;
    forall j | 0 <= j < |idx|
      ensures idx[j] < |cs| && !cs[idx[j]].hidden && fs[j] == TextFrame(cs[idx[j]].text)
    {
      if j < |idx0| {
        assert idx[j] == idx0[j] && fs[j] == fs0[j];
        assert cs[idx0[j]] == init[idx0[j]];
      } else {
        assert idx[j] == n && fs[j] == TextFrame(c.text);
      }
    }
    forall j, k | 0 <= j < k < |idx| ensures idx[j] < idx[k] {
      if k < |idx0| {
        assert idx[j] == idx0[j] && idx[k] == idx0[k];
      } else {
        assert idx[j] == idx0[j] < n;
      }
    }
    forall i | 0 <= i < |cs| && !cs[i].hidden ensures i in idx {
      if i < n {
        assert init[i] == cs[i];
        assert i in idx0;
      } else {
        assert idx[|idx| - 1] == n;
      }
    }
  }

  lemma TextFramesAreVisibleChunks(cs: seq<Chunk>)
    ensures FramesAreVisibleChunks(cs)
  {
    assert FramesAreVisibleChunks(cs[..0]);
    for k := 0 to |cs|
      invariant FramesAreVisibleChunks(cs[..k])
    {
      assert cs[..k + 1][..k] == cs[..k];
      FramesAreVisibleChunksStep(cs[..k + 1]);
    }
    assert cs[..|cs|] == cs;
  }

  /** No frame of TextFrames is a done or an error frame. */
  lemma OnlyTextFrames(cs: seq<Chunk>)
    ensures forall j :: 0 <= j < |TextFrames(cs)| ==> TextFrames(cs)[j].TextFrame?
  {
    TextFramesAreVisibleChunks(cs);
  }

  /** When the stream ends without error: all non-hidden chunks as text frames, then exactly
      one done frame, last, and no error frame. */
  lemma CompletedRelay(g: Generation)
    requires !Fails(g)
    ensures var fs := RelayFrames(g);
      && fs == TextFrames(g.chunks) + [DoneFrame]
      && (forall j :: 0 <= j < |fs| - 1 ==> fs[j].TextFrame?)
      && (forall j :: 0 <= j < |fs| ==> !fs[j].ErrorFrame?)
  {
    assert Drawn(g) == g.chunks;
    OnlyTextFrames(g.chunks);
  }

  /** When read number k rejects: the text frames of the chunks drawn before it, then exactly
      one error frame carrying the error's text, no done frame, and the stream is errored. */
  lemma FailedRelay(g: Generation)
    requires Fails(g)
    ensures var fs := RelayFrames(g);
      var k := g.failure.value.at;
      && fs == TextFrames(g.chunks[..k]) + [ErrorFrame(g.failure.value.reason)]
      && (forall j :: 0 <= j < |fs| - 1 ==> fs[j].TextFrame?)
      && (forall j :: 0 <= j < |fs| ==> !fs[j].DoneFrame?)
      && StreamErrored(g.failure.value.reason) in RelayEvents(g)
  {
    OnlyTextFrames(g.chunks[..g.failure.value.at]);
    assert RelayTail(g)[0] == StreamErrored(g.failure.value.reason);
    assert RelayEvents(g)[|RelayEnqueues(g)|] == RelayTail(g)[0];
  }

  lemma {:induction false} EnqueuesOnlyEnqueue(fs: seq<Frame>, e: Event)
    requires !e.Enqueued?
    ensures Count(Enqueues(fs), e) == 0
    decreases |fs|
  {
    if fs != [] {
      EnqueuesOnlyEnqueue(fs[..|fs| - 1], e);
      assert Enqueues(fs)[..|Enqueues(fs)| - 1] == Enqueues(fs[..|fs| - 1]);
    }
  }

  lemma CountCleanup(e: Event)
    requires e in CLEANUP
    ensures Count(CLEANUP, e) == 1
  {
    assert CLEANUP[..2] == [LockReleased, CloseCalled];
    assert CLEANUP[..2][..1] == [LockReleased];
    assert [LockReleased][..0] == [];
  }

  /** Each cleanup call occurs exactly once among the relay's calls. */
  lemma CleanupOnce(g: Generation, e: Event)
    requires e in CLEANUP
    ensures Count(RelayEvents(g), e) == 1
  {
    var fs := RelayFrames(g);
    RelayEnqueuesAreEnqueues(g);
    EnqueuesOnlyEnqueue(fs, e);
    CountAppend(Enqueues(fs), RelayTail(g), e);
    CleanupOnceInTail(g, e);
  }

  lemma CleanupOnceInTail(g: Generation, e: Event)
    requires e in CLEANUP
    ensures Count(RelayTail(g), e) == 1
  {
    var mid: seq<Event> := if Fails(g) then [StreamErrored(g.failure.value.reason)] else [];
    assert RelayTail(g) == mid + CLEANUP;
    CountAppend(mid, CLEANUP, e);
    CountCleanup(e);
    assert Count(mid, e) == 0 by {
      if mid != [] {
        assert mid[..0] == [];
      }
    }
  }

  /** On both paths the relay ends with releaseLock, controller.close and socket.close, in that
      order, and makes each of these calls exactly once. */
  lemma CleanupOnEveryPath(g: Generation)
    ensures var ev := RelayEvents(g);
      && |ev| >= 3
      && ev[|ev| - 3..] == CLEANUP
      && Count(ev, LockReleased) == 1
      && Count(ev, CloseCalled) == 1
      && Count(ev, SocketClosed) == 1
  {
    CleanupOnce(g, LockReleased);
    CleanupOnce(g, CloseCalled);
    CleanupOnce(g, SocketClosed);
  }

  lemma NoSocketCloseAsWritten(g: Generation)
    requires Fails(g)
    ensures Count(RelayTailAsWritten(g), SocketClosed) == 0
  {
    var reason := g.failure.value.reason;
    var tail := RelayTailAsWritten(g);
    assert tail[..2] == [StreamErrored(reason), LockReleased];
    assert [StreamErrored(reason), LockReleased][..1] == [StreamErrored(reason)];
    assert [StreamErrored(reason)][..0] == [];
    assert Count([StreamErrored(reason)], SocketClosed) == 0;
    assert Count([StreamErrored(reason), LockReleased], SocketClosed) == 0;
  }

  /** As written, a rejected read leaves the socket open: socket.close is never called,
      where the intended relay calls it once. */
  lemma SocketLeakAsWritten(g: Generation)
    requires Fails(g)
    ensures Count(RelayEventsAsWritten(g), SocketClosed) == 0
    ensures Count(RelayEvents(g), SocketClosed) == 1
  {
    var fs := RelayFrames(g);
    RelayEnqueuesAreEnqueues(g);
    EnqueuesOnlyEnqueue(fs, SocketClosed);
    CountAppend(Enqueues(fs), RelayTailAsWritten(g), SocketClosed);
    NoSocketCloseAsWritten(g);
    CleanupOnce(g, SocketClosed);
  }

  /** When no read rejects, the code as written makes exactly the intended calls. */
  lemma CompletedRelayAsWritten(g: Generation)
    requires !Fails(g)
    ensures RelayEventsAsWritten(g) == RelayEvents(g)
  {
  }

  lemma BodySnoc(ev: seq<Event>, e: Event)
    ensures Body(ev + [e]) == Body(ev) + (if e.Enqueued? then e.data else [])
  {
    assert (ev + [e])[..|ev|] == ev;
  }

  ghost predicate BodyMatches(fs: seq<Frame>)
  {
    Body(Enqueues(fs)) == EncodeAll(fs)
  }

  lemma BodyMatchesStep(fs: seq<Frame>, f: Frame)
    requires BodyMatches(fs)
    ensures BodyMatches(fs + [f])
  {
    EnqueuesSnoc(fs, f);
    BodySnoc(Enqueues(fs), Enqueued(Encode(f)));
    EncodeAllSnoc(fs, f);
  }

  /** The body is the frames' encodings, concatenated in order. */
  lemma {:induction false} BodyOfEnqueues(fs: seq<Frame>)
    ensures BodyMatches(fs)
    decreases |fs|
  {
    if fs != [] {
      var pre := fs[..|fs| - 1];
      assert fs == pre + [fs[|fs| - 1]];
      BodyOfEnqueues(pre);
      BodyMatchesStep(pre, fs[|fs| - 1]);
    }
  }

  lemma {:induction false} BodyIgnoresOthers(ev: seq<Event>, tail: seq<Event>)
    requires forall i :: 0 <= i < |tail| ==> !tail[i].Enqueued?
    ensures Body(ev + tail) == Body(ev)
    decreases |tail|
  {
    if tail != [] {
      var n := |tail| - 1;
      assert (ev + tail)[..|ev + tail| - 1] == ev + tail[..n];
      BodyIgnoresOthers(ev, tail[..n]);
    } else {
      assert ev + tail == ev;
    }
  }

  lemma TailHasNoEnqueue(g: Generation)
    ensures forall i :: 0 <= i < |RelayTail(g)| ==> !RelayTail(g)[i].Enqueued?
  {
  }

  /** The bytes a client receives are the encodings of the relay's frames, in order. */
  lemma BodyOfRelay(g: Generation)
    ensures Body(RelayEvents(g)) == EncodeAll(RelayFrames(g))
  {
    var fs := RelayFrames(g);
    RelayEnqueuesAreEnqueues(g);
    TailHasNoEnqueue(g);
    BodyIgnoresOthers(Enqueues(fs), RelayTail(g));
    BodyOfEnqueues(fs);
  }

  /** The bytes the client receives split back into exactly the relay's frames. */
  lemma ClientReadsRelayFrames(g: Generation)
    ensures DecodeStream(Body(RelayEvents(g))) == Some(RelayFrames(g))
  {
    BodyOfRelay(g);
    DecodeEncodeAll(RelayFrames(g));
  }

  /** The example conversation: a hidden chunk between two visible ones. */
  lemma HiddenChunkExample()
    ensures RelayFrames(Generation([Chunk("Hi", false), Chunk("SECRET", true), Chunk(" there", false)], None))
         == [TextFrame("Hi"), TextFrame(" there"), DoneFrame]
  {
    var a, b, c := Chunk("Hi", false), Chunk("SECRET", true), Chunk(" there", false);
    var g := Generation([a, b, c], None);
    assert !Fails(g);
    assert Drawn(g) == [a, b, c];
    assert [a][..0] == [] && [a, b][..1] == [a] && [a, b, c][..2] == [a, b];
    assert TextFrames([a]) == [TextFrame("Hi")];
    assert TextFrames([a, b]) == [TextFrame("Hi")];
    assert TextFrames([a, b, c]) == [TextFrame("Hi"), TextFrame(" there")];
  }
}
