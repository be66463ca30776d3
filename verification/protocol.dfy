/** The older dispatcher (src/protocol.ts): a smaller WELCOME/SYNC state
    machine over one module-level record holding the client id and the
    world state, with no connectivity, map, callback or monitor. */
module Protocol {
  import opened Wrappers
  import opened Messages

  /** The module-level record; `worldState` is null until the first WELCOME or SYNC. */
  datatype LegacyState = LegacyState(clientId: string, worldState: Option<seq<Player>>)

  function Init(): (s: LegacyState)
    ensures s.clientId == "" && s.worldState.None?
  {
    LegacyState("", None)
  }

  /** `handleWelcome`: take the id and the world from the payload. */
  function HandleWelcome(s: LegacyState, p: WelcomePayload): (s': LegacyState)
    ensures s'.clientId == p.id && s'.worldState == Some(p.worldState)
  {
    s.(clientId := p.id, worldState := Some(p.worldState))
  }

  /** `handleSync`: take the world from the payload and keep the id. */
  function HandleSync(s: LegacyState, p: SyncPayload): (s': LegacyState)
    ensures s'.clientId == s.clientId && s'.worldState == Some(p.worldState)
  {
    s.(worldState := Some(p.worldState))
  }

  /** `dispatchMessage`: WELCOME and SYNC go to their handlers, which throw
      when the payload they read is missing; every other kind, CONNECTED
      included, changes nothing. */
  function Dispatch(s: LegacyState, m: Message): (r: Result<LegacyState, Fault>)
    ensures r.Failure? <==> !PayloadFitsKind(m)
    ensures r.Failure? ==> r.error == MissingPayload(m.kind)
    ensures m.kind !in {WELCOME, SYNC} ==> r == Success(s)
    ensures r.Success? && m.kind == WELCOME ==> r.value == HandleWelcome(s, m.payload.value.welcome)
    ensures r.Success? && m.kind == SYNC ==> r.value == HandleSync(s, m.payload.value.sync)
  {
    match m.kind
    case WELCOME =>
      if m.payload.Some? && m.payload.value.WelcomeData?
      then Success(HandleWelcome(s, m.payload.value.welcome))
      else Failure(MissingPayload(WELCOME))
    case SYNC =>
      if m.payload.Some? && m.payload.value.SyncData?
      then Success(HandleSync(s, m.payload.value.sync))
      else Failure(MissingPayload(SYNC))
    case _ => Success(s)
  }

  /** Dispatching the same envelope twice leaves the record as dispatching it once. */
  lemma DispatchIsIdempotent(s: LegacyState, m: Message)
    requires PayloadFitsKind(m)
    ensures Dispatch(Dispatch(s, m).value, m) == Dispatch(s, m)
  {
  }

  /** Only the last of a WELCOME followed by a SYNC decides the world, and
      the id comes from the WELCOME. */
  lemma WelcomeThenSync(s: LegacyState, w: WelcomePayload, p: SyncPayload)
    ensures var s1 := Dispatch(s, Message(WELCOME, Some(WelcomeData(w)), None)).value;
            Dispatch(s1, Message(SYNC, Some(SyncData(p)), None)) == Success(LegacyState(w.id, Some(p.worldState)))
  {
  }
}
