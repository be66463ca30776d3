/** The wire envelope and the payload and record shapes the client exchanges
    with the server (src/message.ts). */
module Messages {
  import opened Wrappers

  /** The `MessageType` enum. CONNECTED and DISCONNECTED are synthesised
      locally by the transport bridge; the others travel over the wire.
      UNKNOWN stands for any other `type` string a parsed frame may carry:
      the cast of the parsed value does not check it. */
  datatype MessageType = CONNECTED | WELCOME | SYNC | DISCONNECTED | INTENT | PING | PONG | UNKNOWN

  datatype Player = Player(id: string, x: real, y: real, color: string)

  /** Walls and platforms share one shape; `x` and `y` are the centre. */
  datatype Rect = Rect(id: string, x: real, y: real, width: real, height: real)
  type Wall = Rect
  type Platform = Rect

  datatype GameMap = GameMap(walls: seq<Wall>, platforms: seq<Platform>)

  datatype WelcomePayload = WelcomePayload(id: string, worldState: seq<Player>, gameMap: GameMap)

  /** Durations are the server's floating-point milliseconds; only their order matters here. */
  datatype SyncPayload = SyncPayload(
    worldState: seq<Player>,
    gameMap: GameMap,
    lastIntentSeq: Option<int>,
    lastIntentSentAt: Option<int>,
    physicsDurationMs: real,
    broadcastDurationMs: real)

  /** The intent the sampler actually builds: the client id and a movement
      delta (the declared interface with booleans, `seq` and `sentAt` is never
      constructed by the client). */
  datatype IntentPayload = IntentPayload(id: string, deltaX: int, deltaY: int)

  datatype PingPayload = PingPayload(clientTime: int)

  datatype PongPayload = PongPayload(clientTime: int, serverTime: int)

  /** The payload an envelope carries, whichever shape it has. */
  datatype Payload =
    | WelcomeData(welcome: WelcomePayload)
    | SyncData(sync: SyncPayload)
    | IntentData(intent: IntentPayload)
    | PingData(ping: PingPayload)
    | PongData(pong: PongPayload)

  /** The envelope `{ type, payload? }`. `rawBytes` is the optional
      `__rawBytes` property the reconciler looks up on a SYNC envelope; the
      client itself never sets it, but a parsed frame may carry one. */
  datatype Message = Message(kind: MessageType, payload: Option<Payload>, rawBytes: Option<int>)

  /** The error a handler throws when it reads a field of a payload that is
      not there (a JavaScript TypeError). */
  datatype Fault = MissingPayload(kind: MessageType)

  /** An envelope with no payload, as the bridge builds for CONNECTED and DISCONNECTED. */
  function Bare(kind: MessageType): Message {
    Message(kind, None, None)
  }

  /** The envelope's payload is the one its handler reads: a WELCOME carries
      a welcome payload and a SYNC a sync payload. Every other kind is
      handled without looking at its payload. */
  predicate PayloadFitsKind(m: Message) {
    && (m.kind == WELCOME ==> m.payload.Some? && m.payload.value.WelcomeData?)
    && (m.kind == SYNC ==> m.payload.Some? && m.payload.value.SyncData?)
  }
}
