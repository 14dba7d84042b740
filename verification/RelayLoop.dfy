/** The relay loop and the receive loop it is built on. */
module RelayLoop {
  import opened Options
  import opened MachineInts
  import opened RelayModel

  /** One end of the relay: what its peer has still to deliver, and what was sent to it. */
  class Endpoint {
    var incoming: seq<byte>
    var sent: seq<byte>

    constructor (incoming: seq<byte>)
      ensures this.incoming == incoming && sent == []
    {
      this.incoming := incoming;
      sent := [];
    }

    /** The system call: -1 for a failure, 0 for a closed stream, otherwise bytes of the stream
        in order, never more than asked for. */
    method Recv(outcome: RecvOutcome, len: nat) returns (bytesRead: int, buf: seq<byte>)
      requires 0 < len <= READ_BUFFER
      modifies this`incoming
      ensures outcome.Arrived? ==>
                && bytesRead == Min(outcome.count, Min(len, |old(incoming)|))
                && buf == old(incoming)[..bytesRead] && incoming == old(incoming)[bytesRead..]
      ensures !outcome.Arrived? ==> bytesRead == -1 && buf == [] && incoming == old(incoming)
    {
      if !outcome.Arrived? {
        return -1, [];
      }
      bytesRead := Min(outcome.count, Min(len, |incoming|));
      buf := incoming[..bytesRead];
      incoming := incoming[bytesRead..];
    }

    /** Reads until the socket has nothing available, an error or the end of the stream. Returns
        exactly the bytes taken from the stream, in order. */
    method ReceiveBytes(script: seq<RecvOutcome>) returns (ret: seq<byte>)
      modifies this`incoming
      ensures var k := Consumed(old(incoming), script, READ_BUFFER);
        ret == old(incoming)[..k] && incoming == old(incoming)[k..]
    {
      hide Consumed;
      ghost var stream := incoming;
      ret := [];
      var arg := READ_BUFFER;
      var i := 0;
      while true
        invariant 0 <= i <= |script| && 0 < arg <= READ_BUFFER
        invariant |ret| <= |stream| && ret == stream[..|ret|] && incoming == stream[|ret|..]
        invariant Consumed(stream, script, READ_BUFFER) == |ret| + Consumed(incoming, script[i..], arg)
        decreases |script| - i
      {
        ghost var pending := incoming;
        var outcome, bytesRead, buf := Failed, -1, [];
        while true
          invariant 0 <= i <= |script| && incoming == pending
          invariant Consumed(stream, script, READ_BUFFER) == |ret| + Consumed(pending, script[i..], arg)
          decreases |script| - i
        {
          NextOutcome(pending, script, i, arg);
          outcome := if i < |script| then script[i] else Failed;
          i := if i < |script| then i + 1 else i;
          bytesRead, buf := Recv(outcome, arg);
          if !(bytesRead == -1 && outcome == Interrupted) {
            break;
          }
        }
        if bytesRead < 0 {
          break;
        } else if bytesRead == 0 {
          break;
        }
        AppendSlice(stream, |ret|, bytesRead);
        ret := ret + buf;
        arg := outcome.available;
        if arg == 0 {
          break;
        }
        if arg > READ_BUFFER {
          arg := READ_BUFFER;
        }
      }
    }

    method SendBytes(bytes: seq<byte>)
      modifies this`sent
      ensures sent == old(sent) + bytes
    {
      sent := sent + bytes;
    }
  }

  /** What the next receive call contributes. */
  lemma NextOutcome(pending: seq<byte>, script: seq<RecvOutcome>, i: nat, arg: nat)
    requires i <= |script|
    ensures i == |script| ==> Consumed(pending, script[i..], arg) == 0
    ensures i < |script| ==>
              Consumed(pending, script[i..], arg) ==
              match script[i]
              case Interrupted => Consumed(pending, script[i + 1..], arg)
              case Failed => 0
              case Arrived(count, available) =>
                var k := Min(count, Min(arg, |pending|));
                if k == 0 then 0
                else if available == 0 then k
                else k + Consumed(pending[k..], script[i + 1..], Min(available, READ_BUFFER))
  {
    if i < |script| {
      assert script[i..][1..] == script[i + 1..];
    }
  }

  lemma AppendSlice(s: seq<byte>, i: nat, n: nat)
    requires i + n <= |s|
    ensures s[..i] + s[i..][..n] == s[..i + n] && s[i..][n..] == s[i + n..]
  {
  }

  /** The relay of one connection, watched for a finite number of passes of its endless loop. */
  method ThreadHandler<Ctx>(client: Endpoint, target: Endpoint, exec_context: Ctx,
      up: (seq<byte>, Ctx) -> Reply<Ctx>, down: (seq<byte>, Ctx) -> Reply<Ctx>, passes: seq<Pass>)
    returns (served: nat, stopped: bool, ghost relay: Relay<Ctx>)
    requires client != target
    modifies client, target
    ensures served <= |passes|
    ensures relay == ServeAll(
              Opened(old(client.incoming), old(target.incoming), old(target.sent), old(client.sent), exec_context),
              passes[..served], up, down)
    ensures client.incoming == relay.client && target.incoming == relay.target
    ensures target.sent == relay.toTarget && client.sent == relay.toClient
    ensures stopped <==> exists i :: 0 <= i < |relay.chunks|
                                && relay.chunks[i].bytes == [] && relay.chunks[i].response.Some?
    ensures !stopped ==> served == |passes|
    ensures stopped ==> served > 0 && !SomeEnds(ServeAll(
              Opened(old(client.incoming), old(target.incoming), old(target.sent), old(client.sent), exec_context),
              passes[..served - 1], up, down).chunks)
  {
    hide Consumed, SomeEnds, ServeUp, ServeDown;
    NothingEnds();
    ghost var start := Opened(client.incoming, target.incoming, target.sent, client.sent, exec_context);
    relay := start;
    var ctx := exec_context;
    served, stopped := 0, false;
    while served < |passes|
      invariant 0 <= served <= |passes| && !stopped
      invariant relay == ServeAll(start, passes[..served], up, down) && ctx == relay.ctx
      invariant client.incoming == relay.client && target.incoming == relay.target
      invariant target.sent == relay.toTarget && client.sent == relay.toClient
      invariant !SomeEnds(relay.chunks)
    {
      var pass := passes[served];
      var still_connected := true;
      ghost var before := relay;
      if pass.clientReady {
        UpView(relay, pass.clientScript, up);
        var bytes := client.ReceiveBytes(pass.clientScript);
        match up(bytes, ctx) {
          case Reply(response, c) =>
            ctx := c;
            target.SendBytes(response);
            if bytes == [] {
              still_connected := false;
            }
          case Threw(c) =>
            ctx := c;
        }
        relay := ServeUp(relay, pass.clientScript, up);
        EndsSnoc(before.chunks, relay.chunks[|before.chunks|]);
      }
      ghost var middle := relay;
      if pass.targetReady {
        DownView(relay, pass.targetScript, down);
        var bytes := target.ReceiveBytes(pass.targetScript);
        match down(bytes, ctx) {
          case Reply(response, c) =>
            ctx := c;
            client.SendBytes(response);
            if bytes == [] {
              still_connected := false;
            }
          case Threw(c) =>
            ctx := c;
        }
        relay := ServeDown(relay, pass.targetScript, down);
        EndsSnoc(middle.chunks, relay.chunks[|middle.chunks|]);
      }
      assert passes[..served + 1][..served] == passes[..served];
      served := served + 1;
      if !still_connected {
        stopped := true;
        break;
      }
    }
    assert passes[..|passes|] == passes;
    EndsExactly(relay.chunks);
  }

  /** What serving the client changes. */
  lemma UpView<Ctx>(s: Relay<Ctx>, script: seq<RecvOutcome>, up: (seq<byte>, Ctx) -> Reply<Ctx>)
    ensures var k, s' := Consumed(s.client, script, READ_BUFFER), ServeUp(s, script, up);
      var r := up(s.client[..k], s.ctx);
      && s'.client == s.client[k..] && s'.target == s.target && s'.toClient == s.toClient && s'.ctx == r.ctx
      && (r.Reply? ==> s'.toTarget == s.toTarget + r.response)
      && (r.Threw? ==> s'.toTarget == s.toTarget)
      && s'.chunks == s.chunks + [Chunk(true, s.client[..k], if r.Reply? then Some(r.response) else None)]
  {
  }

  lemma DownView<Ctx>(s: Relay<Ctx>, script: seq<RecvOutcome>, down: (seq<byte>, Ctx) -> Reply<Ctx>)
    ensures var k, s' := Consumed(s.target, script, READ_BUFFER), ServeDown(s, script, down);
      var r := down(s.target[..k], s.ctx);
      && s'.target == s.target[k..] && s'.client == s.client && s'.toTarget == s.toTarget && s'.ctx == r.ctx
      && (r.Reply? ==> s'.toClient == s.toClient + r.response)
      && (r.Threw? ==> s'.toClient == s.toClient)
      && s'.chunks == s.chunks + [Chunk(false, s.target[..k], if r.Reply? then Some(r.response) else None)]
  {
  }

  lemma EndsExactly(chunks: seq<Chunk>)
    ensures SomeEnds(chunks) <==>
            exists i :: 0 <= i < |chunks| && chunks[i].bytes == [] && chunks[i].response.Some?
  {
  }

  lemma NothingEnds()
    ensures !SomeEnds([])
  {
  }

  lemma EndsSnoc(chunks: seq<Chunk>, c: Chunk)
    ensures SomeEnds(chunks + [c]) <==> SomeEnds(chunks) || c.Ends()
  {
    var more := chunks + [c];
    assert more[|chunks|] == c;
    assert forall i :: 0 <= i < |chunks| ==> more[i] == chunks[i];
  }
}
