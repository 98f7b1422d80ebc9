/** The window's state machine (src/window/StatesSwitcher.py): a fixed map
    of named screens, one of which is current. Each `State`'s `set_state`
    and `remove_state` callbacks are recorded, in order, in `trace`. */
module StatesSwitcher {
  import opened Wrappers

  /** A call of one of a state object's two callbacks. */
  datatype Event<S> = SetState(state: S) | RemoveState(state: S)

  /** A callback history in which every state that was set was removed
      before the next one was set, and the states set were `states` values:
      `SetState(s0), RemoveState(s0), SetState(s1), RemoveState(s1), ...,
      SetState(sk)`. */
  predicate Bracketed<S(==)>(trace: seq<Event<S>>, states: map<string, S>) {
    && |trace| % 2 == 1
    && (forall i :: 0 <= i < |trace| && i % 2 == 0 ==> trace[i].SetState? && trace[i].state in states.Values)
    && (forall i :: 0 <= i < |trace| && i % 2 == 1 ==> trace[i] == RemoveState(trace[i - 1].state))
  }

  /** Extending a bracketed history by removing the last state set and
      setting another keeps it bracketed. */
  lemma BracketedStep<S>(trace: seq<Event<S>>, states: map<string, S>, next: S)
    requires Bracketed(trace, states)
    requires next in states.Values
    ensures trace[|trace| - 1].SetState?
    ensures Bracketed(trace + [RemoveState(trace[|trace| - 1].state), SetState(next)], states)
  {
    var t := trace + [RemoveState(trace[|trace| - 1].state), SetState(next)];
    var n := |trace|;
    forall i | 0 <= i < |t| && i % 2 == 0 ensures t[i].SetState? && t[i].state in states.Values {
      if i < n {
        assert t[i] == trace[i];
      } else {
        assert i == n + 1;
      }
    }
    forall i | 0 <= i < |t| && i % 2 == 1 ensures t[i] == RemoveState(t[i - 1].state) {
      if i < n {
        assert t[i] == trace[i] && t[i - 1] == trace[i - 1];
      } else {
        assert i == n;
      }
    }
  }

  /** `StateSwitcher`. */
  class StateSwitcher<S(==)> {
    /** `_states`, fixed at construction. */
    const states: map<string, S>
    /** `_current_state`: the name of the current state. */
    var current: string
    /** The callbacks called on the state objects so far. */
    var trace: seq<Event<S>>

    /** The current name is a state of the map, its state is the last one set,
        and the callbacks came in set/remove pairs. */
    predicate Valid()
      reads this
    {
      && current in states
      && Bracketed(trace, states)
      && trace[|trace| - 1] == SetState(states[current])
    }

    /** `__init__` and `_set_start_state` once `start_state` is known to be a
        key (see `Create` for the case where it is not): the start state is
        current and only its `set_state` has been called. */
    constructor (states: map<string, S>, startState: string)
      requires startState in states
      ensures Valid()
      ensures this.states == states && current == startState
      ensures trace == [SetState(states[startState])]
    {
      this.states := states;
      current := startState;
      trace := [SetState(states[startState])];
    }

    /** `is_state_in_states`: the name is one of the states. */
    predicate IsStateInStates(state: string)
      ensures IsStateInStates(state) <==> state in states.Keys
    {
      state in states
    }

    /** `set_new_state`: an unknown name raises before anything happens;
        otherwise the current state's `remove_state` is called, then the new
        state becomes current and its `set_state` is called. Switching to the
        current state is not special: it is removed and set again. */
    method SetNewState(newState: string) returns (raised: bool)
      requires Valid()
      modifies this
      ensures Valid()
      ensures raised <==> !IsStateInStates(newState)
      ensures raised ==> current == old(current) && trace == old(trace)
      ensures !raised ==>
        && current == newState
        && trace == old(trace) + [RemoveState(states[old(current)]), SetState(states[newState])]
    {
      if !IsStateInStates(newState) {
        return true;
      }
      var currentState := states[current];
      BracketedStep(trace, states, states[newState]);
      trace := trace + [RemoveState(currentState)];
      current := newState;
      var stateToSet := states[current];
      trace := trace + [SetState(stateToSet)];
      raised := false;
    }

    /** `get_current_state_name`. */
    function GetCurrentStateName(): (name: string)
      reads this
      requires Valid()
      ensures name in states
    {
      current
    }

    /** `get_current_state`: the state object of the current name, which is
        the last one whose `set_state` was called. */
    function GetCurrentState(): (s: S)
      reads this
      requires Valid()
      ensures s in states.Values
      ensures trace[|trace| - 1] == SetState(s)
    {
      states[current]
    }
  }

  /** `StateSwitcher(states, start_state)` in full: `None` when the start
      state is not a key, the raise of `is_state_in_states`. */
  method Create<S(==)>(states: map<string, S>, startState: string) returns (r: Option<StateSwitcher<S>>)
    ensures r.None? <==> startState !in states
    ensures r.Some? ==>
      && fresh(r.value) && r.value.Valid()
      && r.value.states == states && r.value.current == startState
      && r.value.trace == [SetState(states[startState])]
  {
    if startState !in states {
      return None;
    }
    var s := new StateSwitcher(states, startState);
    return Some(s);
  }
}
