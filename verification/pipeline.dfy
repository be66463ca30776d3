/** The one coupling between the reconciler and the sampler: the WELCOME
    callback registered with the reconciler forwards the client id to the
    sampler's `onWelcome` (src/state.ts and src/input.ts). The code that
    registers it is not part of this model; here the sampler receives every
    invocation logged for its registered callback, in order. */
module Pipeline {
  import opened Messages
  import State
  import Input

  /** The sampler after receiving the logged invocations that went to `h`. */
  function Deliver(im: Input.IntentManager, log: seq<State.Invocation>, h: State.Handler): Input.IntentManager {
    if log == [] then im
    else
      var im' := Deliver(im, log[..|log| - 1], h);
      if log[|log| - 1].handler == h then Input.OnWelcome(im', log[|log| - 1].clientId) else im'
  }

  lemma {:induction false} DeliverTakesLastId(im: Input.IntentManager, log: seq<State.Invocation>, h: State.Handler)
    requires forall i :: 0 <= i < |log| ==> log[i].handler == h
    ensures Deliver(im, log, h).clientId == if log == [] then im.clientId else log[|log| - 1].clientId
  {
    if log != [] {
      DeliverTakesLastId(im, log[..|log| - 1], h);
    }
  }

  /** With the sampler's callback registered and the two agreeing on the
      client id before a polling tick, they still agree after it: the
      sampler learns every id the reconciler takes from a WELCOME. */
  lemma HandoffKeepsIdsInStep(s: State.Manager, ms: seq<Message>, now: int, im: Input.IntentManager, token: nat)
    requires State.AllFit(ms)
    requires s.onWelcome == State.Registered(token)
    requires im.clientId == s.game.clientId
    ensures var s' := State.Fold(s, ms, now);
            |s.invocations| <= |s'.invocations| &&
            Deliver(im, s'.invocations[|s.invocations|..], s.onWelcome).clientId == s'.game.clientId
  {
    var s' := State.Fold(s, ms, now);
    State.CallbackOncePerWelcome(s, ms, now);
    State.ClientIdIsLastWelcome(s, ms, now);
    var ids := State.WelcomeIds(ms);
    var added := s'.invocations[|s.invocations|..];
    assert |added| == |ids|;
    forall i | 0 <= i < |added|
      ensures added[i] == State.Invocation(s.onWelcome, ids[i])
    {
      assert added[i] == s'.invocations[|s.invocations| + i];
    }
    DeliverTakesLastId(im, added, s.onWelcome);
  }
}
