/** The keyboard (src/keyboard.ts): the set of keys currently held down,
    fed by keydown and keyup events, and the mapping from the four movement
    directions to their arrow keys. */
module Keyboard {
  import opened Wrappers

  datatype Direction = Up | Down | Left | Right

  /** The pressed-key set, keyed by the event's `key` string. */
  datatype Keyboard = Keyboard(pressed: set<string>)

  /** A keyboard on which no key has been pressed. */
  function Init(): (kb: Keyboard)
    ensures kb.pressed == {}
    ensures forall d: Direction :: !IsPressed(kb, d)
  {
    Keyboard({})
  }

  /** The key that stands for a direction. */
  function KeyName(d: Direction): string {
    match d
    case Up => "ArrowUp"
    case Down => "ArrowDown"
    case Left => "ArrowLeft"
    case Right => "ArrowRight"
  }

  /** The direction a key stands for, if any: the inverse of `KeyName`. */
  function DirectionOf(key: string): (r: Option<Direction>)
    ensures r.Some? ==> KeyName(r.value) == key
  {
    if key == "ArrowUp" then Some(Up)
    else if key == "ArrowDown" then Some(Down)
    else if key == "ArrowLeft" then Some(Left)
    else if key == "ArrowRight" then Some(Right)
    else None
  }

  /** Each direction has its own key, and that key maps back to it. */
  lemma KeyNameRoundTrip(d: Direction)
    ensures DirectionOf(KeyName(d)) == Some(d)
  {
  }

  /** A keydown adds the key; every other key keeps its state. */
  function KeyDown(kb: Keyboard, key: string): (kb': Keyboard)
    ensures key in kb'.pressed
    ensures kb'.pressed - {key} == kb.pressed - {key}
  {
    Keyboard(kb.pressed + {key})
  }

  /** A keyup removes the key; every other key keeps its state. */
  function KeyUp(kb: Keyboard, key: string): (kb': Keyboard)
    ensures key !in kb'.pressed
    ensures kb'.pressed - {key} == kb.pressed - {key}
  {
    Keyboard(kb.pressed - {key})
  }

  /** `isPressed`: the direction's arrow key is currently held. */
  predicate IsPressed(kb: Keyboard, d: Direction) {
    KeyName(d) in kb.pressed
  }

  /** A direction is held exactly when the key that stands for it is in the set. */
  lemma IsPressedMatchesKey(kb: Keyboard, key: string)
    ensures DirectionOf(key).Some? ==> (IsPressed(kb, DirectionOf(key).value) <==> key in kb.pressed)
  {
  }

  /** Repeated keydowns of one key are undone by a single keyup: the set
      records whether the key is held, not how often it went down. */
  lemma {:induction false} KeyUpAfterRepeatedKeyDowns(kb: Keyboard, key: string, n: nat)
    ensures key !in KeyUp(KeyDownTimes(kb, key, n), key).pressed
    ensures KeyUp(KeyDownTimes(kb, key, n), key) == KeyUp(kb, key)
  {
    if n > 0 {
      KeyUpAfterRepeatedKeyDowns(kb, key, n - 1);
      assert KeyDownTimes(kb, key, n).pressed == KeyDownTimes(kb, key, n - 1).pressed + {key};
    }
  }

  /** `n` keydown events of the same key. */
  function KeyDownTimes(kb: Keyboard, key: string, n: nat): Keyboard {
    if n == 0 then kb else KeyDown(KeyDownTimes(kb, key, n - 1), key)
  }
}
