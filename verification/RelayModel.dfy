/** The proxy's relay between a client and a target, as a step machine over two byte streams.
    What the system decides is given from outside: how each receive call is cut, which socket is
    readable in which pass, and what the handlers answer. */
module RelayModel {
  import opened Options
  import opened MachineInts

  const READ_BUFFER: nat := 1024

  /** What one `recv` does: it is interrupted, it fails, or it has `count` bytes ready, after
      which the socket reports `available` more. */
  datatype RecvOutcome = Interrupted | Failed | Arrived(count: nat, available: nat)

  function Min(a: nat, b: nat): nat
  {
    if a < b then a else b
  }

  /** How many of the pending bytes one `ReceiveBytes` call consumes when its receive calls go as
      scripted and the next one asks for `arg` bytes. A script that runs out ends in a failure. */
  function Consumed(pending: seq<byte>, script: seq<RecvOutcome>, arg: nat): (k: nat)
    ensures k <= |pending|
  {
    if script == [] then 0
    else
      match script[0]
      case Interrupted => Consumed(pending, script[1..], arg)
      case Failed => 0
      case Arrived(count, available) =>
        var k := Min(count, Min(arg, |pending|));
        if k == 0 then 0
        else if available == 0 then k
        else k + Consumed(pending[k..], script[1..], Min(available, READ_BUFFER))
  }

  /** A handler's answer: the bytes to pass on and the new context, or an exception. */
  datatype Reply<Ctx> = Reply(response: seq<byte>, ctx: Ctx) | Threw(ctx: Ctx)

  /** One pass of the loop: which sockets are readable, and how their reads go. */
  datatype Pass = Pass(
    clientReady: bool, clientScript: seq<RecvOutcome>,
    targetReady: bool, targetScript: seq<RecvOutcome>)

  /** One served read: its direction, what was read and what was sent on for it. */
  datatype Chunk = Chunk(up: bool, bytes: seq<byte>, response: Option<seq<byte>>)
  {
    /** The read that ends the loop. A handler that throws keeps it from being noticed. */
    predicate Ends() { bytes == [] && response.Some? }
  }

  /** The bytes each side has still to deliver, the bytes sent to each side, the shared context,
      and the chunks served so far. */
  datatype Relay<Ctx> = Relay(
    client: seq<byte>, target: seq<byte>, toTarget: seq<byte>, toClient: seq<byte>,
    ctx: Ctx, chunks: seq<Chunk>)

  function ServeUp<Ctx>(s: Relay<Ctx>, script: seq<RecvOutcome>, up: (seq<byte>, Ctx) -> Reply<Ctx>): Relay<Ctx>
  {
    var k := Consumed(s.client, script, READ_BUFFER);
    var bytes := s.client[..k];
    match up(bytes, s.ctx)
    case Reply(r, ctx) =>
      s.(client := s.client[k..], toTarget := s.toTarget + r, ctx := ctx,
         chunks := s.chunks + [Chunk(true, bytes, Some(r))])
    case Threw(ctx) =>
      s.(client := s.client[k..], ctx := ctx, chunks := s.chunks + [Chunk(true, bytes, None)])
  }

  function ServeDown<Ctx>(s: Relay<Ctx>, script: seq<RecvOutcome>, down: (seq<byte>, Ctx) -> Reply<Ctx>): Relay<Ctx>
  {
    var k := Consumed(s.target, script, READ_BUFFER);
    var bytes := s.target[..k];
    match down(bytes, s.ctx)
    case Reply(r, ctx) =>
      s.(target := s.target[k..], toClient := s.toClient + r, ctx := ctx,
         chunks := s.chunks + [Chunk(false, bytes, Some(r))])
    case Threw(ctx) =>
      s.(target := s.target[k..], ctx := ctx, chunks := s.chunks + [Chunk(false, bytes, None)])
  }

  /** Client first, then target, whatever the first read gave. */
  function ServePass<Ctx>(s: Relay<Ctx>, pass: Pass,
      up: (seq<byte>, Ctx) -> Reply<Ctx>, down: (seq<byte>, Ctx) -> Reply<Ctx>): Relay<Ctx>
  {
    var s' := if pass.clientReady then ServeUp(s, pass.clientScript, up) else s;
    if pass.targetReady then ServeDown(s', pass.targetScript, down) else s'
  }

  function ServeAll<Ctx>(s: Relay<Ctx>, passes: seq<Pass>,
      up: (seq<byte>, Ctx) -> Reply<Ctx>, down: (seq<byte>, Ctx) -> Reply<Ctx>): Relay<Ctx>
  {
    if passes == [] then s
    else var n := |passes| - 1; ServePass(ServeAll(s, passes[..n], up, down), passes[n], up, down)
  }

  /** Some chunk of the list ends the loop. */
  ghost predicate SomeEnds(chunks: seq<Chunk>)
  {
    exists i :: 0 <= i < |chunks| && chunks[i].Ends()
  }

  // ----- the chunks of one direction

  function Bytes(chunks: seq<Chunk>, up: bool): seq<byte>
  {
    if chunks == [] then []
    else
      var n := |chunks| - 1;
      Bytes(chunks[..n], up) + if chunks[n].up == up then chunks[n].bytes else []
  }

  function Responses(chunks: seq<Chunk>, up: bool): seq<byte>
  {
    if chunks == [] then []
    else
      var n := |chunks| - 1;
      Responses(chunks[..n], up)
      + if chunks[n].up == up && chunks[n].response.Some? then chunks[n].response.value else []
  }

  /** A relay that has served nothing yet. */
  function Opened<Ctx>(
      client: seq<byte>, target: seq<byte>, toTarget: seq<byte>, toClient: seq<byte>, ctx: Ctx): Relay<Ctx>
  {
    Relay(client, target, toTarget, toClient, ctx, [])
  }
}
