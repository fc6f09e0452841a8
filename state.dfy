/**
 * The UI's state stack (ui/state.go `StateStack`): the app states the user
 * has navigated through, the current one last. `AppState` is the type
 * parameter `S`; Go's `nil` result on an empty stack is `None`.
 */
module AppStates {

  import opened Wrappers

  /** The state on top of a stack, if any. */
  function Top<S>(states: seq<S>): (r: Option<S>)
    ensures r.None? <==> states == []
    ensures r.Some? ==> r.value == states[|states| - 1] && r.value in states
  {
    if states == [] then None else Some(states[|states| - 1])
  }

  class StateStack<S> {
    var states: seq<S>

    /** The zero `StateStack`: a nil slice. */
    constructor()
      ensures states == []
    {
      states := [];
    }

    /** `Push`: `state` becomes the current state. */
    method Push(state: S)
      modifies this
      ensures states == old(states) + [state]
    {
      states := states + [state];
    }

    /** `Pop`: go back to the previous state, returning the one left; nil and no change when empty. */
    method Pop() returns (top: Option<S>)
      modifies this
      ensures top == Top(old(states))
      ensures old(states) == [] ==> states == []
      ensures old(states) != [] ==> states == old(states)[..|old(states)| - 1] && old(states) == states + [top.value]
    {
      if |states| == 0 {
        return None;
      }
      top := Some(states[|states| - 1]);
      states := states[..|states| - 1];
    }

    /** `Peek`: the current state, nil when empty; the stack is not changed. */
    method Peek() returns (top: Option<S>)
      ensures top == Top(states)
    {
      if |states| == 0 {
        return None;
      }
      return Some(states[|states| - 1]);
    }

    /** `Length`: the number of states; the stack is not changed. */
    method Length() returns (n: nat)
      ensures n == |states|
    {
      return |states|;
    }
  }

  /** After a push the pushed state is on top and the stack is one longer. */
  lemma PushedIsTop<S>(states: seq<S>, state: S)
    ensures Top(states + [state]) == Some(state) && |states + [state]| == |states| + 1
  {
  }

  /** Popping what was just pushed gives it back and restores the stack. */
  lemma PopUndoesPush<S>(states: seq<S>, state: S)
    ensures var pushed := states + [state];
      Top(pushed) == Some(state) && pushed[..|pushed| - 1] == states
  {
  }

  /** Push then Pop on a live stack: the state comes back and the stack is as before. */
  method PushThenPop<S>(stack: StateStack<S>, state: S) returns (top: Option<S>)
    modifies stack
    ensures top == Some(state) && stack.states == old(stack.states)
  {
    stack.Push(state);
    top := stack.Pop();
    assert old(stack.states) + [state] == stack.states + [top.value];
  }

  /** Push then Peek: the state is current and the stack is one longer. */
  method PushThenPeek<S>(stack: StateStack<S>, state: S) returns (top: Option<S>, n: nat)
    modifies stack
    ensures top == Some(state) && n == |old(stack.states)| + 1
  {
    stack.Push(state);
    top := stack.Peek();
    n := stack.Length();
  }
}
