/** The intent sampler (src/input.ts): once the client id is known, each
    sampling tick turns the arrow keys into a movement delta and queues one
    INTENT envelope when the delta is not zero. */
module Input {
  import opened Wrappers
  import opened Messages
  import Keyboard

  /** Distance of one step along an axis, per tick. */
  const MoveStep: int := 4

  /** The sampler's own state: the client id, empty until a WELCOME. */
  datatype IntentManager = IntentManager(clientId: string)

  function Init(): (im: IntentManager)
    ensures im.clientId == ""
  {
    IntentManager("")
  }

  /** `onWelcome`: the id handed over by the reconciler's callback. */
  function OnWelcome(im: IntentManager, clientId: string): (im': IntentManager)
    ensures im'.clientId == clientId
  {
    im.(clientId := clientId)
  }

  function Indicator(b: bool): int {
    if b then 1 else 0
  }

  /** The movement delta of one tick, accumulated key by key as the sampler
      does: RIGHT adds a step to x, LEFT takes one away, UP takes one from y,
      DOWN adds one. */
  function Delta(kb: Keyboard.Keyboard): (r: (int, int))
    ensures r.0 == MoveStep * Indicator(Keyboard.IsPressed(kb, Keyboard.Right)) - MoveStep * Indicator(Keyboard.IsPressed(kb, Keyboard.Left))
    ensures r.1 == MoveStep * Indicator(Keyboard.IsPressed(kb, Keyboard.Down)) - MoveStep * Indicator(Keyboard.IsPressed(kb, Keyboard.Up))
    ensures r.0 in {-MoveStep, 0, MoveStep} && r.1 in {-MoveStep, 0, MoveStep}
  {
    var x0 := 0;
    var x1 := if Keyboard.IsPressed(kb, Keyboard.Right) then x0 + MoveStep else x0;
    var x2 := if Keyboard.IsPressed(kb, Keyboard.Left) then x1 - MoveStep else x1;
    var y0 := 0;
    var y1 := if Keyboard.IsPressed(kb, Keyboard.Up) then y0 - MoveStep else y0;
    var y2 := if Keyboard.IsPressed(kb, Keyboard.Down) then y1 + MoveStep else y1;
    (x2, y2)
  }

  /** The delta is zero exactly when opposite keys are both held or both
      released on each axis. */
  lemma DeltaZeroIffOppositesAgree(kb: Keyboard.Keyboard)
    ensures Delta(kb) == (0, 0) <==>
      && (Keyboard.IsPressed(kb, Keyboard.Left) <==> Keyboard.IsPressed(kb, Keyboard.Right))
      && (Keyboard.IsPressed(kb, Keyboard.Up) <==> Keyboard.IsPressed(kb, Keyboard.Down))
  {
  }

  /** The INTENT envelope the sampler builds for a delta. */
  function IntentMessage(clientId: string, delta: (int, int)): Message {
    Message(INTENT, Some(IntentData(IntentPayload(clientId, delta.0, delta.1))), None)
  }

  /** `processInput`: one sampling tick. With no client id the tick is
      skipped; otherwise exactly one INTENT carrying the id and the delta is
      appended when the delta is non-zero, and nothing otherwise. */
  function ProcessInput(im: IntentManager, kb: Keyboard.Keyboard, outbound: seq<Message>): (out': seq<Message>)
    ensures im.clientId == "" ==> out' == outbound
    ensures |out'| == |outbound| + 1 <==> im.clientId != "" && Delta(kb) != (0, 0)
    ensures |out'| == |outbound| || |out'| == |outbound| + 1
    ensures out'[..|outbound|] == outbound
    ensures |out'| > |outbound| ==>
      && out'[|outbound|].kind == INTENT
      && out'[|outbound|].payload.Some? && out'[|outbound|].payload.value.IntentData?
      && out'[|outbound|].payload.value.intent.id == im.clientId
      && (out'[|outbound|].payload.value.intent.deltaX, out'[|outbound|].payload.value.intent.deltaY) == Delta(kb)
  {
    if im.clientId == "" then outbound
    else
      var delta := Delta(kb);
      if delta.0 != 0 || delta.1 != 0 then outbound + [IntentMessage(im.clientId, delta)]
      else outbound
  }

  /** Holding LEFT and RIGHT together, and nothing else, sends nothing. */
  lemma OppositeKeysCancel(im: IntentManager, outbound: seq<Message>)
    ensures var kb := Keyboard.KeyDown(Keyboard.KeyDown(Keyboard.Init(), "ArrowLeft"), "ArrowRight");
            ProcessInput(im, kb, outbound) == outbound
  {
    var kb := Keyboard.KeyDown(Keyboard.KeyDown(Keyboard.Init(), "ArrowLeft"), "ArrowRight");
    assert kb.pressed == {"ArrowLeft", "ArrowRight"};
    assert !Keyboard.IsPressed(kb, Keyboard.Up) && !Keyboard.IsPressed(kb, Keyboard.Down);
  }

  /** Once a WELCOME has handed over a non-empty id, a tick with a
      non-zero delta is no longer suppressed and its intent carries that id. */
  lemma WelcomeEnablesIntents(im: IntentManager, clientId: string, kb: Keyboard.Keyboard, outbound: seq<Message>)
    requires clientId != "" && Delta(kb) != (0, 0)
    ensures ProcessInput(OnWelcome(im, clientId), kb, outbound) == outbound + [IntentMessage(clientId, Delta(kb))]
  {
  }
}
