/** The state reconciler (src/state.ts): it owns the client's game state,
    drains the inbound queue on each polling tick, applies each envelope in
    arrival order, hands the client id to the registered WELCOME callback,
    and feeds SYNC measurements to the latency monitor. */
module State {
  import opened Wrappers
  import opened Messages
  import LatencyMonitor

  datatype GameState = GameState(
    clientId: string,
    worldState: seq<Player>,
    gameMap: Option<GameMap>,
    isConnected: bool)

  /** The callback registered for WELCOME: the built-in no-op, or one
      registered by a caller, told apart by a token. */
  datatype Handler = NoOp | Registered(token: nat)

  /** One invocation of the WELCOME callback: which callback, with which id. */
  datatype Invocation = Invocation(handler: Handler, clientId: string)

  /** The reconciler: the game state, the registered callback, the log of
      its invocations, and the latency monitor it feeds. */
  datatype Manager = Manager(
    game: GameState,
    onWelcome: Handler,
    invocations: seq<Invocation>,
    monitor: LatencyMonitor.Monitor)

  /** A reconciler as constructed: no client id, no world, no map,
      disconnected, with the no-op callback. */
  function Init(monitor: LatencyMonitor.Monitor): (s: Manager)
    ensures s.game.clientId == "" && s.game.worldState == [] && s.game.gameMap.None? && !s.game.isConnected
    ensures s.onWelcome == NoOp && s.invocations == [] && s.monitor == monitor
  {
    Manager(GameState("", [], None, false), NoOp, [], monitor)
  }

  /** `setOnWelcomeCallback`: later WELCOMEs invoke `handler`; nothing else changes. */
  function SetOnWelcomeCallback(s: Manager, handler: Handler): (s': Manager)
    ensures s'.onWelcome == handler
    ensures s'.(onWelcome := s.onWelcome) == s
  {
    s.(onWelcome := handler)
  }

  /** `handleWelcome`: take the id, world and map from the payload and
      invoke the callback once with the id. */
  function HandleWelcome(s: Manager, p: WelcomePayload): (s': Manager)
    ensures s'.game == GameState(p.id, p.worldState, Some(p.gameMap), s.game.isConnected)
    ensures s'.invocations == s.invocations + [Invocation(s.onWelcome, p.id)]
    ensures s'.onWelcome == s.onWelcome && s'.monitor == s.monitor
  {
    var game := s.game.(clientId := p.id, worldState := p.worldState, gameMap := Some(p.gameMap));
    s.(game := game, invocations := s.invocations + [Invocation(s.onWelcome, p.id)])
  }

  /** `handleSync`: replace world and map together, and record the
      measurements with the monitor once. */
  function HandleSync(s: Manager, p: SyncPayload, rawBytes: int, now: int): (s': Manager)
    ensures s'.game.worldState == p.worldState && s'.game.gameMap == Some(p.gameMap)
    ensures s'.game.clientId == s.game.clientId && s'.game.isConnected == s.game.isConnected
    ensures s'.onWelcome == s.onWelcome && s'.invocations == s.invocations
    ensures s'.monitor == LatencyMonitor.RecordSync(
      s.monitor, rawBytes, p.lastIntentSentAt, p.physicsDurationMs, p.broadcastDurationMs, now)
  {
    var game := s.game.(worldState := p.worldState, gameMap := Some(p.gameMap));
    var monitor := LatencyMonitor.RecordSync(
      s.monitor, rawBytes, p.lastIntentSentAt, p.physicsDurationMs, p.broadcastDurationMs, now);
    s.(game := game, monitor := monitor)
  }

  /** `handleMessage`: apply one envelope. A WELCOME or SYNC without the
      payload its handler reads throws; every other kind is handled. */
  function HandleMessage(s: Manager, m: Message, now: int): (r: Result<Manager, Fault>)
    ensures r.Failure? <==> !PayloadFitsKind(m)
    ensures r.Failure? ==> r.error == MissingPayload(m.kind)
    ensures r.Success? && m.kind == CONNECTED ==>
      r.value.game.isConnected && r.value.(game := r.value.game.(isConnected := s.game.isConnected)) == s
    ensures r.Success? && m.kind == DISCONNECTED ==>
      !r.value.game.isConnected && r.value.(game := r.value.game.(isConnected := s.game.isConnected)) == s
    ensures r.Success? && m.kind == WELCOME ==> r.value == HandleWelcome(s, m.payload.value.welcome)
    ensures r.Success? && m.kind == SYNC ==> r.value == HandleSync(s, m.payload.value.sync, m.rawBytes.GetOr(0), now)
    ensures m.kind in {INTENT, PING, PONG, UNKNOWN} ==> r == Success(s)
  {
    match m.kind
    case CONNECTED => Success(s.(game := s.game.(isConnected := true)))
    case DISCONNECTED => Success(s.(game := s.game.(isConnected := false)))
    case WELCOME =>
      if m.payload.Some? && m.payload.value.WelcomeData?
      then Success(HandleWelcome(s, m.payload.value.welcome))
      else Failure(MissingPayload(WELCOME))
    case SYNC =>
      if m.payload.Some? && m.payload.value.SyncData?
      then Success(HandleSync(s, m.payload.value.sync, m.rawBytes.GetOr(0), now))
      else Failure(MissingPayload(SYNC))
    case _ => Success(s)
  }

  /** The monitor update of a SYNC is the monitor's own SYNC event, so the
      monitor's run lemmas apply to the reconciler's `monitor` field. */
  lemma HandleSyncIsMonitorStep(s: Manager, p: SyncPayload, rawBytes: int, now: int)
    ensures HandleSync(s, p, rawBytes, now).monitor == LatencyMonitor.Step(
      s.monitor,
      LatencyMonitor.SyncEvent(rawBytes, p.lastIntentSentAt, p.physicsDurationMs, p.broadcastDurationMs, now))
  {
  }

  predicate AllFit(ms: seq<Message>) {
    forall i :: 0 <= i < |ms| ==> PayloadFitsKind(ms[i])
  }

  /** Handling the envelopes `ms` one after another, first to last. */
  function Fold(s: Manager, ms: seq<Message>, now: int): Manager
    requires AllFit(ms)
  {
    if ms == [] then s
    else HandleMessage(Fold(s, ms[..|ms| - 1], now), ms[|ms| - 1], now).value
  }

  /** One polling tick: shift and handle envelopes until the queue is empty.
      Returns the reconciler, what is left of the queue, and the error that
      ended the tick early, if any. A throwing envelope has already been
      shifted, so the envelopes after it wait for the next tick. */
  method PollInbound(s: Manager, inbound: seq<Message>, now: int)
    returns (s': Manager, rest: seq<Message>, fault: Option<Fault>)
    ensures fault.None? ==> rest == [] && AllFit(inbound) && s' == Fold(s, inbound, now)
    ensures AllFit(inbound) ==> fault.None? && rest == []
    ensures fault.Some? ==>
      var k := |inbound| - |rest| - 1;
      && 0 <= k < |inbound|
      && AllFit(inbound[..k]) && !PayloadFitsKind(inbound[k])
      && fault.value == MissingPayload(inbound[k].kind)
      && s' == Fold(s, inbound[..k], now)
      && rest == inbound[k + 1..]
  {
    s' := s;
    rest := inbound;
    fault := None;
    while rest != []
      invariant |rest| <= |inbound| && rest == inbound[|inbound| - |rest|..]
      invariant AllFit(inbound[..|inbound| - |rest|])
      invariant s' == Fold(s, inbound[..|inbound| - |rest|], now)
      decreases |rest|
    {
      var done := inbound[..|inbound| - |rest|];
      var m := rest[0];
      rest := rest[1..];
      var r := HandleMessage(s', m, now);
      if r.Failure? {
        fault := Some(r.error);
        return;
      }
      var done' := inbound[..|inbound| - |rest|];
      assert done' == done + [m] && done'[..|done'| - 1] == done;
      s' := r.value;
    }
    assert inbound[..|inbound|] == inbound;
  }

  /** The ids of the WELCOME envelopes among `ms`, in order. */
  function WelcomeIds(ms: seq<Message>): seq<string>
    requires AllFit(ms)
  {
    if ms == [] then []
    else WelcomeIds(ms[..|ms| - 1])
         + (if ms[|ms| - 1].kind == WELCOME then [ms[|ms| - 1].payload.value.welcome.id] else [])
  }

  /** While the registered callback stays the same, draining envelopes
      invokes it once per WELCOME, with that WELCOME's id, in arrival order. */
  lemma {:induction false} CallbackOncePerWelcome(s: Manager, ms: seq<Message>, now: int)
    requires AllFit(ms)
    ensures var s' := Fold(s, ms, now);
      && s'.onWelcome == s.onWelcome
      && |s'.invocations| == |s.invocations| + |WelcomeIds(ms)|
      && s'.invocations[..|s.invocations|] == s.invocations
      && forall i :: 0 <= i < |WelcomeIds(ms)| ==>
           s'.invocations[|s.invocations| + i] == Invocation(s.onWelcome, WelcomeIds(ms)[i])
  {
    if ms != [] {
      var init := ms[..|ms| - 1];
      assert AllFit(init);
      CallbackOncePerWelcome(s, init, now);
    }
  }

  /** After a drain the client id is the id of the last WELCOME drained,
      or unchanged when there was none. */
  lemma {:induction false} ClientIdIsLastWelcome(s: Manager, ms: seq<Message>, now: int)
    requires AllFit(ms)
    ensures var ids := WelcomeIds(ms);
      Fold(s, ms, now).game.clientId == if ids == [] then s.game.clientId else ids[|ids| - 1]
  {
    if ms != [] {
      var init := ms[..|ms| - 1];
      assert AllFit(init);
      ClientIdIsLastWelcome(s, init, now);
    }
  }

  /** A drain that holds no WELCOME leaves the client id and the callback log alone. */
  lemma NoWelcomeKeepsIdentity(s: Manager, ms: seq<Message>, now: int)
    requires AllFit(ms)
    requires forall i :: 0 <= i < |ms| ==> ms[i].kind != WELCOME
    ensures Fold(s, ms, now).game.clientId == s.game.clientId
    ensures Fold(s, ms, now).invocations == s.invocations
  {
    NoWelcomeNoIds(ms);
    ClientIdIsLastWelcome(s, ms, now);
    CallbackOncePerWelcome(s, ms, now);
  }

  lemma {:induction false} NoWelcomeNoIds(ms: seq<Message>)
    requires AllFit(ms)
    requires forall i :: 0 <= i < |ms| ==> ms[i].kind != WELCOME
    ensures WelcomeIds(ms) == []
  {
    if ms != [] {
      NoWelcomeNoIds(ms[..|ms| - 1]);
    }
  }

  /** A SYNC that carries no `__rawBytes` is recorded as a frame of 0 bytes. */
  lemma SyncWithoutSizeRecordsZeroBytes(s: Manager, p: SyncPayload, now: int)
    ensures var r := HandleMessage(s, Message(SYNC, Some(SyncData(p)), None), now);
      && r.Success?
      && r.value.monitor.syncBytesPerFrame == Some(0)
      && r.value.monitor.byteAccumulator == s.monitor.byteAccumulator
  {
  }
}
