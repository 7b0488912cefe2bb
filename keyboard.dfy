/** The keyboard input singletons (KeyboardSingleton.cpp and
    InputKeyboardSingleton.cpp, which carry the same logic under two class
    names): a 256-bit key-state set driven by window messages. */
module Keyboard {
  import opened Wrappers

  const KeyBound: nat := 256

  const WmKeyDown: nat := 0x0100
  const WmKeyUp: nat := 0x0101
  const WmSysKeyDown: nat := 0x0104
  const WmSysKeyUp: nat := 0x0105

  predicate IsDownMessage(message: nat) {
    message == WmKeyDown || message == WmSysKeyDown
  }

  predicate IsUpMessage(message: nat) {
    message == WmKeyUp || message == WmSysKeyUp
  }

  /** What IsKeyDown throws (release build) on a key past the bound. */
  datatype KeyError = KeyOutOfBounds

  /** The key states after one message: an out-of-range wParam or an
      unrelated message changes nothing, a key-down sets bit wParam, a key-up
      clears it, and no other bit moves. */
  function AfterMessage(states: seq<bool>, message: nat, wParam: nat): (r: seq<bool>)
    requires |states| == KeyBound
    ensures |r| == KeyBound
    ensures forall k :: 0 <= k < KeyBound && k != wParam ==> r[k] == states[k]
    ensures wParam >= KeyBound || !(IsDownMessage(message) || IsUpMessage(message)) ==> r == states
    ensures wParam < KeyBound && IsDownMessage(message) ==> r[wParam]
    ensures wParam < KeyBound && IsUpMessage(message) ==> !r[wParam]
  {
    if wParam >= KeyBound then states
    else if IsDownMessage(message) then states[wParam := true]
    else if IsUpMessage(message) then states[wParam := false]
    else states
  }

  /** A message replayed has no further effect. */
  lemma MessageIdempotent(states: seq<bool>, message: nat, wParam: nat)
    requires |states| == KeyBound
    ensures AfterMessage(AfterMessage(states, message, wParam), message, wParam) == AfterMessage(states, message, wParam)
  {
  }

  /** A key pressed and released is up again whatever it was before, and
      every other key keeps its state. */
  lemma PressReleaseRestoresOthers(states: seq<bool>, key: nat)
    requires |states| == KeyBound && key < KeyBound
    ensures var after := AfterMessage(AfterMessage(states, WmKeyDown, key), WmKeyUp, key);
      !after[key] && forall k :: 0 <= k < KeyBound && k != key ==> after[k] == states[k]
  {
  }

  /** The key-state set; both singletons are instances of it. */
  class KeyStates {
    /** m_btKeyStates. */
    const keys: array<bool>

    ghost predicate Valid()
      reads this
    {
      keys.Length == KeyBound
    }

    constructor ()
      ensures Valid() && fresh(keys)
      ensures forall k :: 0 <= k < KeyBound ==> !keys[k]
    {
      keys := new bool[KeyBound](_ => false);
    }

    method HandleMessage(message: nat, wParam: nat)
      requires Valid()
      modifies keys
      ensures keys[..] == AfterMessage(old(keys[..]), message, wParam)
    {
      if wParam >= KeyBound {
        return;
      }
      if IsDownMessage(message) {
        keys[wParam] := true;
      } else if IsUpMessage(message) {
        keys[wParam] := false;
      }
    }

    /** Reset: every bit cleared. */
    method Reset()
      requires Valid()
      modifies keys
      ensures forall k :: 0 <= k < KeyBound ==> !keys[k]
    {
      var k := 0;
      while k < KeyBound
        invariant 0 <= k <= KeyBound
        invariant forall j :: 0 <= j < k ==> !keys[j]
      {
        keys[k] := false;
        k := k + 1;
      }
    }

    /** IsKeyDown in a release build: a key past the bound throws, any
      other key reports its bit. */
    function IsKeyDown(key: nat): (r: Result<bool, KeyError>)
      requires Valid()
      reads this, keys
      ensures r.Err? <==> key >= KeyBound
      ensures r.Ok? ==> (r.value <==> keys[key])
    {
      if key >= KeyBound then Err(KeyOutOfBounds) else Ok(keys[key])
    }

    /** operator[] forwards to IsKeyDown. */
    function At(key: nat): (r: Result<bool, KeyError>)
      requires Valid()
      reads this, keys
      ensures r == IsKeyDown(key)
      ensures r.Err? <==> key >= KeyBound
    {
      IsKeyDown(key)
    }
  }
}
