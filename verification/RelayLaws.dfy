/** What the relay delivers is determined by what it consumed. */
module RelayLaws {
  import opened Options
  import opened MachineInts
  import opened RelayModel

  lemma ChunkSnoc(chunks: seq<Chunk>, c: Chunk, up: bool)
    ensures Bytes(chunks + [c], up) == Bytes(chunks, up) + if c.up == up then c.bytes else []
    ensures Responses(chunks + [c], up) ==
            Responses(chunks, up) + if c.up == up && c.response.Some? then c.response.value else []
    ensures c.up != up ==>
              Bytes(chunks + [c], up) == Bytes(chunks, up) && Responses(chunks + [c], up) == Responses(chunks, up)
  {
    assert (chunks + [c])[..|chunks|] == chunks;
  }

  // ----- conservation

  /** The chunks of each direction partition what that direction consumed, and what was sent on
      is the responses to them in order. */
  ghost predicate Conserved<Ctx>(s0: Relay<Ctx>, s: Relay<Ctx>)
  {
    && s0.client == Bytes(s.chunks, true) + s.client
    && s0.target == Bytes(s.chunks, false) + s.target
    && s.toTarget == s0.toTarget + Responses(s.chunks, true)
    && s.toClient == s0.toClient + Responses(s.chunks, false)
  }

  lemma UpConserves<Ctx>(s0: Relay<Ctx>, s: Relay<Ctx>, script: seq<RecvOutcome>, up: (seq<byte>, Ctx) -> Reply<Ctx>)
    requires Conserved(s0, s)
    ensures Conserved(s0, ServeUp(s, script, up))
  {
    hide Bytes, Responses, Consumed;
    var s' := ServeUp(s, script, up);
    var c := s'.chunks[|s.chunks|];
    ChunkSnoc(s.chunks, c, true);
    ChunkSnoc(s.chunks, c, false);
    var k := |c.bytes|;
    assert s.client == s.client[..k] + s.client[k..];
  }

  lemma DownConserves<Ctx>(s0: Relay<Ctx>, s: Relay<Ctx>, script: seq<RecvOutcome>,
      down: (seq<byte>, Ctx) -> Reply<Ctx>)
    requires Conserved(s0, s)
    ensures Conserved(s0, ServeDown(s, script, down))
  {
    hide Bytes, Responses, Consumed;
    var s' := ServeDown(s, script, down);
    var c := s'.chunks[|s.chunks|];
    ChunkSnoc(s.chunks, c, true);
    ChunkSnoc(s.chunks, c, false);
    var k := |c.bytes|;
    assert s.target == s.target[..k] + s.target[k..];
  }

  lemma {:induction false} RelayConserves<Ctx>(s0: Relay<Ctx>, passes: seq<Pass>,
      up: (seq<byte>, Ctx) -> Reply<Ctx>, down: (seq<byte>, Ctx) -> Reply<Ctx>)
    requires s0.chunks == []
    ensures Conserved(s0, ServeAll(s0, passes, up, down))
    decreases |passes|
  {
    if passes != [] {
      hide Conserved, ServeUp, ServeDown;
      var n := |passes| - 1;
      RelayConserves(s0, passes[..n], up, down);
      var s, pass := ServeAll(s0, passes[..n], up, down), passes[n];
      UpConserves(s0, s, pass.clientScript, up);
      var s' := if pass.clientReady then ServeUp(s, pass.clientScript, up) else s;
      DownConserves(s0, s', pass.targetScript, down);
    } else {
      NothingServed(s0);
    }
  }

  lemma NothingServed<Ctx>(s0: Relay<Ctx>)
    requires s0.chunks == []
    ensures Conserved(s0, s0)
  {
  }

  // ----- which reads take place

  /** The directions a run of passes is to serve: in every pass the client if it is readable, then
      the target if it is, whatever the reads give. True is upwards. */
  function Schedule(passes: seq<Pass>): seq<bool>
  {
    if passes == [] then []
    else
      var n := |passes| - 1;
      Schedule(passes[..n])
      + (if passes[n].clientReady then [true] else []) + (if passes[n].targetReady then [false] else [])
  }

  function Directions(chunks: seq<Chunk>): seq<bool>
  {
    seq(|chunks|, i requires 0 <= i < |chunks| => chunks[i].up)
  }

  lemma OneServed<Ctx>(s: Relay<Ctx>, script: seq<RecvOutcome>, h: (seq<byte>, Ctx) -> Reply<Ctx>)
    ensures Directions(ServeUp(s, script, h).chunks) == Directions(s.chunks) + [true]
    ensures Directions(ServeDown(s, script, h).chunks) == Directions(s.chunks) + [false]
  {
    hide Consumed;
  }

  /** Exactly the readable sides are served, once per pass, client before target. */
  lemma {:induction false} ScheduleIsServed<Ctx>(s0: Relay<Ctx>, passes: seq<Pass>,
      up: (seq<byte>, Ctx) -> Reply<Ctx>, down: (seq<byte>, Ctx) -> Reply<Ctx>)
    requires s0.chunks == []
    ensures Directions(ServeAll(s0, passes, up, down).chunks) == Schedule(passes)
    decreases |passes|
  {
    hide ServeUp, ServeDown, Directions;
    if passes == [] {
      assert Directions(s0.chunks) == [] by { NothingDirected(s0.chunks); }
    } else {
      var n := |passes| - 1;
      ScheduleIsServed(s0, passes[..n], up, down);
      var s, pass := ServeAll(s0, passes[..n], up, down), passes[n];
      OneServed(s, pass.clientScript, up);
      var s' := if pass.clientReady then ServeUp(s, pass.clientScript, up) else s;
      OneServed(s', pass.targetScript, down);
    }
  }

  lemma NothingDirected(chunks: seq<Chunk>)
    requires chunks == []
    ensures Directions(chunks) == []
  {
  }

  /** How the receive calls of one side go, read by read. */
  function Scripts(passes: seq<Pass>, up: bool): seq<seq<RecvOutcome>>
  {
    if passes == [] then []
    else
      var n := |passes| - 1;
      Scripts(passes[..n], up)
      + (if up && passes[n].clientReady then [passes[n].clientScript]
         else if !up && passes[n].targetReady then [passes[n].targetScript] else [])
  }

  /** How much of a stream such a row of reads takes. */
  function Taken(stream: seq<byte>, scripts: seq<seq<RecvOutcome>>): (m: nat)
    ensures m <= |stream|
  {
    if scripts == [] then 0
    else
      var n := |scripts| - 1;
      var m := Taken(stream, scripts[..n]);
      m + Consumed(stream[m..], scripts[n], 1024)
  }

  /** The pieces it cuts the stream into. */
  function Cut(stream: seq<byte>, scripts: seq<seq<RecvOutcome>>): seq<seq<byte>>
  {
    if scripts == [] then []
    else
      var n := |scripts| - 1;
      Cut(stream, scripts[..n]) + [stream[Taken(stream, scripts[..n])..Taken(stream, scripts)]]
  }

  /** The reads of one direction, in order. */
  function Reads(chunks: seq<Chunk>, up: bool): seq<seq<byte>>
  {
    if chunks == [] then []
    else
      var n := |chunks| - 1;
      Reads(chunks[..n], up) + if chunks[n].up == up then [chunks[n].bytes] else []
  }

  /** One side has read what its scripts make of its stream, and the rest is pending. */
  ghost predicate HasRead(
      stream: seq<byte>, scripts: seq<seq<RecvOutcome>>, pending: seq<byte>, pieces: seq<seq<byte>>)
  {
    pieces == Cut(stream, scripts) && pending == stream[Taken(stream, scripts)..]
  }

  lemma ReadsMore(stream: seq<byte>, scripts: seq<seq<RecvOutcome>>, pending: seq<byte>, pieces: seq<seq<byte>>,
      script: seq<RecvOutcome>)
    requires HasRead(stream, scripts, pending, pieces)
    ensures var k := Consumed(pending, script, 1024);
      HasRead(stream, scripts + [script], pending[k..], pieces + [pending[..k]])
  {
    hide Consumed;
    assert (scripts + [script])[..|scripts|] == scripts;
    var m, k := Taken(stream, scripts), Consumed(pending, script, 1024);
    assert stream[m..][..k] == stream[m..m + k];
    assert stream[m..][k..] == stream[m + k..];
  }

  ghost predicate BothHaveRead<Ctx>(s0: Relay<Ctx>, passes: seq<Pass>, s: Relay<Ctx>)
  {
    && HasRead(s0.client, Scripts(passes, true), s.client, Reads(s.chunks, true))
    && HasRead(s0.target, Scripts(passes, false), s.target, Reads(s.chunks, false))
  }

  lemma ReadsSnoc(chunks: seq<Chunk>, c: Chunk, up: bool)
    ensures Reads(chunks + [c], up) == if c.up == up then Reads(chunks, up) + [c.bytes] else Reads(chunks, up)
  {
    assert (chunks + [c])[..|chunks|] == chunks;
  }

  lemma UpReads<Ctx>(s: Relay<Ctx>, script: seq<RecvOutcome>, up: (seq<byte>, Ctx) -> Reply<Ctx>)
    ensures var s', k := ServeUp(s, script, up), Consumed(s.client, script, 1024);
      && s'.client == s.client[k..] && s'.target == s.target
      && Reads(s'.chunks, true) == Reads(s.chunks, true) + [s.client[..k]]
      && Reads(s'.chunks, false) == Reads(s.chunks, false)
  {
    hide Consumed, Reads;
    var c := ServeUp(s, script, up).chunks[|s.chunks|];
    ReadsSnoc(s.chunks, c, true);
    ReadsSnoc(s.chunks, c, false);
  }

  lemma DownReads<Ctx>(s: Relay<Ctx>, script: seq<RecvOutcome>, down: (seq<byte>, Ctx) -> Reply<Ctx>)
    ensures var s', k := ServeDown(s, script, down), Consumed(s.target, script, 1024);
      && s'.target == s.target[k..] && s'.client == s.client
      && Reads(s'.chunks, false) == Reads(s.chunks, false) + [s.target[..k]]
      && Reads(s'.chunks, true) == Reads(s.chunks, true)
  {
    hide Consumed, Reads;
    var c := ServeDown(s, script, down).chunks[|s.chunks|];
    ReadsSnoc(s.chunks, c, true);
    ReadsSnoc(s.chunks, c, false);
  }

  lemma ScriptsStep(passes: seq<Pass>)
    requires passes != []
    ensures var n := |passes| - 1;
      && Scripts(passes, true) == (if passes[n].clientReady then Scripts(passes[..n], true) + [passes[n].clientScript]
                                   else Scripts(passes[..n], true))
      && Scripts(passes, false) == (if passes[n].targetReady then Scripts(passes[..n], false) + [passes[n].targetScript]
                                    else Scripts(passes[..n], false))
  {
  }

  lemma {:induction false} BothSidesRead<Ctx>(s0: Relay<Ctx>, passes: seq<Pass>,
      up: (seq<byte>, Ctx) -> Reply<Ctx>, down: (seq<byte>, Ctx) -> Reply<Ctx>)
    requires s0.chunks == []
    ensures BothHaveRead(s0, passes, ServeAll(s0, passes, up, down))
    decreases |passes|
  {
    hide ServeUp, ServeDown, Consumed, HasRead, Scripts, Reads;
    if passes == [] {
      NothingCut(s0);
    } else {
      var n := |passes| - 1;
      BothSidesRead(s0, passes[..n], up, down);
      var s, pass := ServeAll(s0, passes[..n], up, down), passes[n];
      UpReads(s, pass.clientScript, up);
      var s' := if pass.clientReady then ServeUp(s, pass.clientScript, up) else s;
      DownReads(s', pass.targetScript, down);
      ScriptsStep(passes);
      ReadsMore(s0.client, Scripts(passes[..n], true), s.client, Reads(s.chunks, true), pass.clientScript);
      ReadsMore(s0.target, Scripts(passes[..n], false), s.target, Reads(s.chunks, false), pass.targetScript);
    }
  }

  /** What each side has read is settled by its own stream and its own receive calls: neither the
      other side nor the handlers, not even one that throws, changes a read. */
  lemma {:induction false} ReadsAreIndependent<Ctx>(s0: Relay<Ctx>, passes: seq<Pass>,
      up: (seq<byte>, Ctx) -> Reply<Ctx>, down: (seq<byte>, Ctx) -> Reply<Ctx>)
    requires s0.chunks == []
    ensures var s := ServeAll(s0, passes, up, down);
      && Reads(s.chunks, true) == Cut(s0.client, Scripts(passes, true))
      && Reads(s.chunks, false) == Cut(s0.target, Scripts(passes, false))
      && s.client == s0.client[Taken(s0.client, Scripts(passes, true))..]
      && s.target == s0.target[Taken(s0.target, Scripts(passes, false))..]
  {
    BothSidesRead(s0, passes, up, down);
  }

  lemma NothingCut<Ctx>(s0: Relay<Ctx>)
    requires s0.chunks == []
    ensures BothHaveRead(s0, [], s0)
  {
  }

  // ----- how much a read takes

  /** The receive calls that are not interrupted. */
  function Uninterrupted(script: seq<RecvOutcome>): seq<RecvOutcome>
  {
    if script == [] then []
    else (if script[0] == Interrupted then [] else [script[0]]) + Uninterrupted(script[1..])
  }

  /** Interrupted calls are made again and leave no trace. */
  lemma {:induction false} InterruptionsLeaveNoTrace(pending: seq<byte>, script: seq<RecvOutcome>, arg: nat)
    ensures Consumed(pending, script, arg) == Consumed(pending, Uninterrupted(script), arg)
    decreases |script|
  {
    if script != [] {
      var rest := Uninterrupted(script[1..]);
      match script[0]
      case Interrupted =>
        assert [] + rest == rest;
        InterruptionsLeaveNoTrace(pending, script[1..], arg);
      case Failed =>
      case Arrived(count, available) =>
        var k := Min(count, Min(arg, |pending|));
        InterruptionsLeaveNoTrace(pending[k..], script[1..], Min(available, READ_BUFFER));
        assert ([script[0]] + rest)[1..] == rest;
    }
  }

  function Total(script: seq<RecvOutcome>): nat
  {
    if script == [] then 0 else (if script[0].Arrived? then script[0].count else 0) + Total(script[1..])
  }

  /** Every call brings bytes, and no more than it asks for: the first asks for `arg`, each later
      one for what the socket reported, at most 1024. */
  ghost predicate Arrivals(script: seq<RecvOutcome>, arg: nat)
  {
    && (forall i :: 0 <= i < |script| ==> script[i].Arrived? && script[i].count > 0)
    && (script != [] ==> script[0].count <= arg)
    && (forall i :: 0 < i < |script| ==> script[i].count <= 1024 && script[i].count <= script[i - 1].available)
  }

  /** Nothing more comes: the script is over, the next call fails or brings nothing, or the last
      one left nothing to read. */
  ghost predicate Over(script: seq<RecvOutcome>, n: nat)
    requires n <= |script|
  {
    || n == |script| || script[n] == Failed || (script[n].Arrived? && script[n].count == 0)
    || (n > 0 && script[n - 1].Arrived? && script[n - 1].available == 0)
  }

  /** A read takes all that arrived before the first call that ends it. */
  lemma {:induction false} ReadTakesAllArrived(pending: seq<byte>, script: seq<RecvOutcome>, n: nat, arg: nat)
    requires n <= |script| && Arrivals(script[..n], arg) && Over(script, n) && Total(script[..n]) <= |pending|
    ensures Consumed(pending, script, arg) == Total(script[..n])
    decreases n
  {
    if n > 0 {
      var k, available := script[0].count, script[0].available;
      ArrivalsTail(script, n, arg);
      assert script[..n][0] == script[0] && script[..n][1..] == script[1..][..n - 1];
      if available > 0 {
        ReadTakesAllArrived(pending[k..], script[1..], n - 1, Min(available, READ_BUFFER));
      }
    }
  }

  lemma ArrivalsTail(script: seq<RecvOutcome>, n: nat, arg: nat)
    requires 0 < n <= |script| && Arrivals(script[..n], arg) && Over(script, n)
    ensures script[0].Arrived? && 0 < script[0].count <= arg
    ensures script[0].available == 0 ==> n == 1
    ensures script[0].available > 0 ==>
              Arrivals(script[1..][..n - 1], if script[0].available < 1024 then script[0].available else 1024)
              && Over(script[1..], n - 1)
  {
    var head, tail := script[..n], script[1..][..n - 1];
    assert head[0] == script[0];
    assert forall i :: 0 <= i < |tail| ==> tail[i] == head[i + 1];
    if n > 1 {
      assert head[1].count <= head[0].available;
    }
    assert forall i :: 0 < i < |tail| ==> tail[i - 1] == head[i];
  }

  /** No call takes more than it asked for, than arrived or than there is; and it takes the least
      of the three. */
  lemma ReceiveTakesTheLeast(pending: seq<byte>, count: nat, arg: nat)
    ensures var k := Consumed(pending, [Arrived(count, 0)], arg);
      k <= count && k <= arg && k <= |pending| && (k == count || k == arg || k == |pending|)
  {
  }

  // ----- the shared context

  function ReplyTo<Ctx>(c: Chunk, ctx: Ctx,
      up: (seq<byte>, Ctx) -> Reply<Ctx>, down: (seq<byte>, Ctx) -> Reply<Ctx>): Reply<Ctx>
  {
    if c.up then up(c.bytes, ctx) else down(c.bytes, ctx)
  }

  /** The context after the chunks of both directions, in the order they were served. */
  function ContextAfter<Ctx>(ctx: Ctx, chunks: seq<Chunk>,
      up: (seq<byte>, Ctx) -> Reply<Ctx>, down: (seq<byte>, Ctx) -> Reply<Ctx>): Ctx
  {
    if chunks == [] then ctx
    else
      var n := |chunks| - 1;
      ReplyTo(chunks[n], ContextAfter(ctx, chunks[..n], up, down), up, down).ctx
  }

  function ResponseOf<Ctx>(r: Reply<Ctx>): Option<seq<byte>>
  {
    if r.Reply? then Some(r.response) else None
  }

  /** Every response is the handler's answer to its chunk in the context the earlier chunks of
      both directions left behind. */
  ghost predicate Threaded<Ctx>(ctx: Ctx, chunks: seq<Chunk>,
      up: (seq<byte>, Ctx) -> Reply<Ctx>, down: (seq<byte>, Ctx) -> Reply<Ctx>)
  {
    forall i :: 0 <= i < |chunks| ==>
      chunks[i].response == ResponseOf(ReplyTo(chunks[i], ContextAfter(ctx, chunks[..i], up, down), up, down))
  }

  lemma ThreadedSnoc<Ctx>(ctx: Ctx, chunks: seq<Chunk>, c: Chunk,
      up: (seq<byte>, Ctx) -> Reply<Ctx>, down: (seq<byte>, Ctx) -> Reply<Ctx>)
    requires Threaded(ctx, chunks, up, down)
    requires c.response == ResponseOf(ReplyTo(c, ContextAfter(ctx, chunks, up, down), up, down))
    ensures Threaded(ctx, chunks + [c], up, down)
    ensures ContextAfter(ctx, chunks + [c], up, down)
            == ReplyTo(c, ContextAfter(ctx, chunks, up, down), up, down).ctx
  {
    var more := chunks + [c];
    assert more[..|chunks|] == chunks;
    forall i | 0 <= i < |more|
      ensures more[i].response == ResponseOf(ReplyTo(more[i], ContextAfter(ctx, more[..i], up, down), up, down))
    {
      if i < |chunks| {
        assert more[..i] == chunks[..i];
      }
    }
  }

  ghost predicate ContextOk<Ctx>(ctx: Ctx, s: Relay<Ctx>,
      up: (seq<byte>, Ctx) -> Reply<Ctx>, down: (seq<byte>, Ctx) -> Reply<Ctx>)
  {
    Threaded(ctx, s.chunks, up, down) && s.ctx == ContextAfter(ctx, s.chunks, up, down)
  }

  lemma UpThreads<Ctx>(ctx: Ctx, s: Relay<Ctx>, script: seq<RecvOutcome>,
      up: (seq<byte>, Ctx) -> Reply<Ctx>, down: (seq<byte>, Ctx) -> Reply<Ctx>)
    requires ContextOk(ctx, s, up, down)
    ensures ContextOk(ctx, ServeUp(s, script, up), up, down)
  {
    hide Threaded, ContextAfter, Consumed;
    ThreadedSnoc(ctx, s.chunks, ServeUp(s, script, up).chunks[|s.chunks|], up, down);
  }

  lemma DownThreads<Ctx>(ctx: Ctx, s: Relay<Ctx>, script: seq<RecvOutcome>,
      up: (seq<byte>, Ctx) -> Reply<Ctx>, down: (seq<byte>, Ctx) -> Reply<Ctx>)
    requires ContextOk(ctx, s, up, down)
    ensures ContextOk(ctx, ServeDown(s, script, down), up, down)
  {
    hide Threaded, ContextAfter, Consumed;
    ThreadedSnoc(ctx, s.chunks, ServeDown(s, script, down).chunks[|s.chunks|], up, down);
  }

  lemma {:induction false} RelayThreadsContext<Ctx>(s0: Relay<Ctx>, passes: seq<Pass>,
      up: (seq<byte>, Ctx) -> Reply<Ctx>, down: (seq<byte>, Ctx) -> Reply<Ctx>)
    requires s0.chunks == []
    ensures var s := ServeAll(s0, passes, up, down);
      Threaded(s0.ctx, s.chunks, up, down) && s.ctx == ContextAfter(s0.ctx, s.chunks, up, down)
    decreases |passes|
  {
    if passes != [] {
      hide Threaded, ContextAfter, ServeUp, ServeDown;
      var n := |passes| - 1;
      RelayThreadsContext(s0, passes[..n], up, down);
      var s, pass := ServeAll(s0, passes[..n], up, down), passes[n];
      UpThreads(s0.ctx, s, pass.clientScript, up, down);
      var s' := if pass.clientReady then ServeUp(s, pass.clientScript, up) else s;
      DownThreads(s0.ctx, s', pass.targetScript, up, down);
    }
  }

  // ----- streaming handlers

  /** `f` treats a stream the same however it is cut: it maps a state and some bytes to the next
      state and the bytes to pass on. */
  ghost predicate Streams<S(!new)>(f: (S, seq<byte>) -> (S, seq<byte>))
  {
    && (forall s :: f(s, []) == (s, []))
    && (forall s, a, b :: f(s, a + b) == Then(f(s, a), f(f(s, a).0, b)))
  }

  function Then<S>(first: (S, seq<byte>), second: (S, seq<byte>)): (S, seq<byte>)
  {
    (second.0, first.1 + second.1)
  }

  /** A handler that never throws and works as `f` on its own part of the shared context, leaving
      the part of the other direction alone. */
  ghost predicate Works<Ctx(!new), S, T>(h: (seq<byte>, Ctx) -> Reply<Ctx>,
      f: (S, seq<byte>) -> (S, seq<byte>), own: Ctx -> S, other: Ctx -> T)
  {
    forall bs, ctx :: WorksOn(h, f, own, other, bs, ctx)
  }

  ghost predicate WorksOn<Ctx(!new), S, T>(h: (seq<byte>, Ctx) -> Reply<Ctx>,
      f: (S, seq<byte>) -> (S, seq<byte>), own: Ctx -> S, other: Ctx -> T, bs: seq<byte>, ctx: Ctx)
  {
    var r := h(bs, ctx);
    r.Reply? && (own(r.ctx), r.response) == f(own(ctx), bs) && other(r.ctx) == other(ctx)
  }

  lemma {:induction false} ResponsesStream<Ctx(!new), S(!new), T(!new)>(ctx: Ctx, chunks: seq<Chunk>,
      up: (seq<byte>, Ctx) -> Reply<Ctx>, down: (seq<byte>, Ctx) -> Reply<Ctx>,
      f: (S, seq<byte>) -> (S, seq<byte>), g: (T, seq<byte>) -> (T, seq<byte>), upper: Ctx -> S, lower: Ctx -> T)
    requires Threaded(ctx, chunks, up, down)
    requires Works(up, f, upper, lower) && Works(down, g, lower, upper) && Streams(f) && Streams(g)
    ensures var after := ContextAfter(ctx, chunks, up, down);
      && (upper(after), Responses(chunks, true)) == f(upper(ctx), Bytes(chunks, true))
      && (lower(after), Responses(chunks, false)) == g(lower(ctx), Bytes(chunks, false))
    decreases |chunks|
  {
    hide Streams, WorksOn, Threaded;
    if chunks == [] {
      NoBytes(f, upper(ctx));
      NoBytes(g, lower(ctx));
    } else {
      var n := |chunks| - 1;
      var init, c := chunks[..n], chunks[n];
      ThreadedLast(ctx, chunks, up, down);
      ResponsesStream(ctx, init, up, down, f, g, upper, lower);
      var before := ContextAfter(ctx, init, up, down);
      assert chunks == init + [c];
      ChunkSnoc(init, c, true);
      ChunkSnoc(init, c, false);
      if c.up {
        assert WorksOn(up, f, upper, lower, c.bytes, before);
        OneMore(up, f, upper, lower, upper(ctx), Bytes(init, true), Responses(init, true), c.bytes, before);
      } else {
        assert WorksOn(down, g, lower, upper, c.bytes, before);
        OneMore(down, g, lower, upper, lower(ctx), Bytes(init, false), Responses(init, false), c.bytes, before);
      }
    }
  }

  lemma NoBytes<S(!new)>(f: (S, seq<byte>) -> (S, seq<byte>), s: S)
    requires Streams(f)
    ensures f(s, []) == (s, [])
  {
  }

  lemma ThreadedLast<Ctx>(ctx: Ctx, chunks: seq<Chunk>,
      up: (seq<byte>, Ctx) -> Reply<Ctx>, down: (seq<byte>, Ctx) -> Reply<Ctx>)
    requires Threaded(ctx, chunks, up, down) && chunks != []
    ensures var n := |chunks| - 1;
      && Threaded(ctx, chunks[..n], up, down)
      && chunks[n].response == ResponseOf(ReplyTo(chunks[n], ContextAfter(ctx, chunks[..n], up, down), up, down))
  {
    var n := |chunks| - 1;
    assert forall i :: 0 <= i < n ==> chunks[..n][..i] == chunks[..i];
  }

  /** One more chunk of a direction, after all its bytes so far. */
  lemma OneMore<Ctx(!new), S(!new), T>(h: (seq<byte>, Ctx) -> Reply<Ctx>,
      f: (S, seq<byte>) -> (S, seq<byte>), own: Ctx -> S, other: Ctx -> T,
      s: S, bytes: seq<byte>, responses: seq<byte>, more: seq<byte>, before: Ctx)
    requires Streams(f) && WorksOn(h, f, own, other, more, before)
    requires (own(before), responses) == f(s, bytes)
    ensures var r := h(more, before);
      && r.Reply? && other(r.ctx) == other(before)
      && (own(r.ctx), responses + r.response) == f(s, bytes + more)
  {
  }

  /** With streaming handlers, what each side was sent is the image of what was consumed of the
      other side's stream: readiness, chunking and the traffic of the other direction leave no
      trace, although both handlers share one context. */
  lemma {:induction false} DeliveredFromConsumed<Ctx(!new), S(!new), T(!new)>(s0: Relay<Ctx>, passes: seq<Pass>,
      up: (seq<byte>, Ctx) -> Reply<Ctx>, down: (seq<byte>, Ctx) -> Reply<Ctx>,
      f: (S, seq<byte>) -> (S, seq<byte>), g: (T, seq<byte>) -> (T, seq<byte>), upper: Ctx -> S, lower: Ctx -> T)
    requires s0.chunks == []
    requires Works(up, f, upper, lower) && Works(down, g, lower, upper) && Streams(f) && Streams(g)
    ensures var s := ServeAll(s0, passes, up, down);
      && |s.client| <= |s0.client| && |s.target| <= |s0.target|
      && var m, n := |s0.client| - |s.client|, |s0.target| - |s.target|;
      && s.client == s0.client[m..] && s.target == s0.target[n..]
      && s.toTarget == s0.toTarget + f(upper(s0.ctx), s0.client[..m]).1
      && s.toClient == s0.toClient + g(lower(s0.ctx), s0.target[..n]).1
      && upper(s.ctx) == f(upper(s0.ctx), s0.client[..m]).0
      && lower(s.ctx) == g(lower(s0.ctx), s0.target[..n]).0
  {
    RelayConserves(s0, passes, up, down);
    RelayThreadsContext(s0, passes, up, down);
    var s := ServeAll(s0, passes, up, down);
    ResponsesStream(s0.ctx, s.chunks, up, down, f, g, upper, lower);
    assert Bytes(s.chunks, true) == s0.client[..|s0.client| - |s.client|];
    assert Bytes(s.chunks, false) == s0.target[..|s0.target| - |s.target|];
  }

  /** A handler that answers every chunk with its image under `f`, whatever the context. */
  ghost predicate Answers<Ctx(!new)>(h: (seq<byte>, Ctx) -> Reply<Ctx>, f: seq<byte> -> seq<byte>)
  {
    forall bs, ctx :: h(bs, ctx).Reply? && h(bs, ctx).response == f(bs)
  }

  /** The case of handlers without a state: each delivers its image of the consumed prefix. */
  lemma {:induction false} DeliveredWithoutState<Ctx(!new)>(s0: Relay<Ctx>, passes: seq<Pass>,
      up: (seq<byte>, Ctx) -> Reply<Ctx>, down: (seq<byte>, Ctx) -> Reply<Ctx>,
      f: seq<byte> -> seq<byte>, g: seq<byte> -> seq<byte>)
    requires s0.chunks == []
    requires Answers(up, f) && f([]) == [] && forall a, b :: f(a + b) == f(a) + f(b)
    requires Answers(down, g) && g([]) == [] && forall a, b :: g(a + b) == g(a) + g(b)
    ensures var s := ServeAll(s0, passes, up, down);
      && |s.client| <= |s0.client| && |s.target| <= |s0.target|
      && var m, n := |s0.client| - |s.client|, |s0.target| - |s.target|;
      && s.client == s0.client[m..] && s.target == s0.target[n..]
      && s.toTarget == s0.toTarget + f(s0.client[..m])
      && s.toClient == s0.toClient + g(s0.target[..n])
  {
    var none := (ctx: Ctx) => ();
    var f', g' := (u: (), bs: seq<byte>) => ((), f(bs)), (u: (), bs: seq<byte>) => ((), g(bs));
    assert forall bs, ctx :: WorksOn(up, f', none, none, bs, ctx);
    assert forall bs, ctx :: WorksOn(down, g', none, none, bs, ctx);
    forall u: ()
      ensures f'(u, []) == (u, []) && g'(u, []) == (u, [])
    {
      assert u == ();
    }
    DeliveredFromConsumed(s0, passes, up, down, f', g', none, none);
  }

  /** The plain relay, whose handlers pass on what they are given: each side is sent exactly what
      was consumed of the other side's stream. */
  lemma {:induction false} IdentityRelay<Ctx(!new)>(s0: Relay<Ctx>, passes: seq<Pass>,
      up: (seq<byte>, Ctx) -> Reply<Ctx>, down: (seq<byte>, Ctx) -> Reply<Ctx>)
    requires s0.chunks == []
    requires forall bs, ctx :: up(bs, ctx).Reply? && up(bs, ctx).response == bs
    requires forall bs, ctx :: down(bs, ctx).Reply? && down(bs, ctx).response == bs
    ensures var s := ServeAll(s0, passes, up, down);
      && |s.client| <= |s0.client| && |s.target| <= |s0.target|
      && var m, n := |s0.client| - |s.client|, |s0.target| - |s.target|;
      && s.client == s0.client[m..] && s.target == s0.target[n..]
      && s.toTarget == s0.toTarget + s0.client[..m]
      && s.toClient == s0.toClient + s0.target[..n]
  {
    var id := (bs: seq<byte>) => bs;
    DeliveredWithoutState(s0, passes, up, down, id, id);
  }

  // ----- the end of the loop

  function Interruptions(script: seq<RecvOutcome>): (n: nat)
    ensures n <= |script|
    ensures forall i :: 0 <= i < n ==> script[i] == Interrupted
    ensures n < |script| ==> script[n] != Interrupted
  {
    if script == [] || script[0] != Interrupted then 0 else 1 + Interruptions(script[1..])
  }

  /** A read is empty exactly when its first receive call that is not interrupted fails or finds
      the stream at its end; bytes that were received are never dropped for a later failure. */
  lemma {:induction false} EmptyReadExactly(pending: seq<byte>, script: seq<RecvOutcome>, arg: nat)
    requires arg > 0
    ensures var n := Interruptions(script);
      Consumed(pending, script, arg) == 0 <==>
      n == |script| || script[n] == Failed || script[n].count == 0 || pending == []
    decreases |script|
  {
    if script != [] && script[0] == Interrupted {
      EmptyReadExactly(pending, script[1..], arg);
    }
  }
}
