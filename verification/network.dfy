/** The transport bridge (src/network.ts): socket events fill the inbound
    queue, and a polling tick drains the outbound queue into the socket
    while it is open. The WebSocket is abstracted: its ready state is the
    flag `open` given to each poll, sent frames are recorded in a log, and
    `JSON.parse` / `JSON.stringify` are the function parameters `parse`
    (partial: `None` when parsing throws) and `stringify`. */
module Network {
  import opened Wrappers
  import opened Messages

  /** The two shared queues and the frames the socket has been given. */
  datatype Bridge = Bridge(inbound: seq<Message>, outbound: seq<Message>, sent: seq<string>)

  /** The open event: queue a CONNECTED envelope; nothing else changes. */
  function OnOpen(b: Bridge): (b': Bridge)
    ensures b'.inbound == b.inbound + [Bare(CONNECTED)]
    ensures b'.outbound == b.outbound && b'.sent == b.sent
  {
    b.(inbound := b.inbound + [Bare(CONNECTED)])
  }

  /** The close event: queue a DISCONNECTED envelope; nothing else changes. */
  function OnClose(b: Bridge): (b': Bridge)
    ensures b'.inbound == b.inbound + [Bare(DISCONNECTED)]
    ensures b'.outbound == b.outbound && b'.sent == b.sent
  {
    b.(inbound := b.inbound + [Bare(DISCONNECTED)])
  }

  /** The message event: a frame that parses is queued as it is, whatever
      its kind; a frame that does not parse is dropped. */
  function OnMessage(b: Bridge, data: string, parse: string -> Option<Message>): (b': Bridge)
    ensures parse(data).Some? ==> b'.inbound == b.inbound + [parse(data).value]
    ensures parse(data).None? ==> b'.inbound == b.inbound
    ensures b'.outbound == b.outbound && b'.sent == b.sent
  {
    match parse(data)
    case Some(m) => b.(inbound := b.inbound + [m])
    case None => b
  }

  /** A PONG frame is queued for the reconciler like any other envelope. */
  lemma PongIsQueued(b: Bridge, data: string, parse: string -> Option<Message>)
    requires parse(data).Some? && parse(data).value.kind == PONG
    ensures |OnMessage(b, data, parse).inbound| == |b.inbound| + 1
    ensures OnMessage(b, data, parse).inbound[|b.inbound|].kind == PONG
  {
  }

  /** One outbound polling tick. When the socket is open and the queue is
      not empty, every queued envelope is shifted and sent, oldest first,
      leaving the queue empty; otherwise nothing is sent and the queue stays. */
  method PollOutbound(b: Bridge, open: bool, stringify: Message -> string) returns (b': Bridge)
    ensures b'.inbound == b.inbound
    ensures open && b.outbound != [] ==>
      && b'.outbound == []
      && |b'.sent| == |b.sent| + |b.outbound|
      && b'.sent[..|b.sent|] == b.sent
      && forall i :: 0 <= i < |b.outbound| ==> b'.sent[|b.sent| + i] == stringify(b.outbound[i])
    ensures !open || b.outbound == [] ==> b' == b
  {
    b' := b;
    if |b'.outbound| > 0 && open {
      while |b'.outbound| > 0
        invariant b'.inbound == b.inbound
        invariant |b'.outbound| <= |b.outbound|
        invariant b'.outbound == b.outbound[|b.outbound| - |b'.outbound|..]
        invariant |b'.sent| == |b.sent| + (|b.outbound| - |b'.outbound|)
        invariant b'.sent[..|b.sent|] == b.sent
        invariant forall i :: 0 <= i < |b.outbound| - |b'.outbound| ==> b'.sent[|b.sent| + i] == stringify(b.outbound[i])
        decreases |b'.outbound|
      {
        var m := b'.outbound[0];
        b' := b'.(outbound := b'.outbound[1..], sent := b'.sent + [stringify(m)]);
      }
    }
  }
}
