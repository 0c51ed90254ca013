/**
 * The Markov chain of CadenasM.py (`CadenaMarkov`): a list of states in insertion
 * order and, per state, an insertion-ordered row destination -> probability.
 * States and transitions are added in place; a simulation walks from an initial
 * state along the rows.
 */
module Markov {
  import opened Wrappers
  import opened Dicts

  /** The errors `simular` raises, both `ValueError` in the source. */
  datatype ChainError =
    | UnknownState(name: string)      // the initial state was never added
    | NoTransitions(state: string)    // the walk reached a state with no row or an empty row

  /** How far a row's sum may be from 1 in `validar_transiciones`. */
  const Tolerance: real := 0.001

  /** A row whose probabilities sum to 1 within the tolerance. */
  predicate Balanced(row: Dict<string, real>) {
    Abs(Total(row) - 1.0) <= Tolerance
  }

  class Chain {
    var states: seq<string>
    var transitions: map<string, Dict<string, real>>

    /**
     * The class invariant kept by the constructor and both mutators: no state
     * twice, a row for exactly the known states, rows with distinct destinations,
     * and only known states as destinations.
     */
    ghost predicate Valid()
      reads this
    {
      && NoDup(states)
      && (forall s :: s in transitions <==> s in states)
      && (forall s | s in transitions :: NoDup(Keys(transitions[s])))
      && (forall s, t | s in transitions && t in Keys(transitions[s]) :: t in states)
    }

    /** A state the walk cannot leave: it has no row, or an empty one. */
    predicate Stuck(s: string)
      reads this
    {
      s !in transitions || transitions[s] == []
    }

    /** Each element of path after the first is a destination in the row of the one before it. */
    predicate IsWalk(path: seq<string>)
      reads this
    {
      forall i | 0 <= i < |path| - 1 :: path[i] in transitions && path[i + 1] in Keys(transitions[path[i]])
    }

    /** `__init__`: no states and no rows. */
    constructor()
      ensures Valid()
      ensures states == [] && transitions == map[]
    {
      states := [];
      transitions := map[];
    }

    /** `agregar_estado`: a new state is appended with an empty row; a known one changes nothing. */
    method AddState(s: string)
      requires Valid()
      modifies this
      ensures Valid()
      ensures s in old(states) ==> states == old(states) && transitions == old(transitions)
      ensures s !in old(states) ==> states == old(states) + [s] && transitions == old(transitions)[s := []]
    {
      if s !in states {
        AppendKeepsDistinct(states, s);
        states := states + [s];
        transitions := transitions[s := []];
      }
    }

    /**
     * `establecer_transicion`: when both states are known, the entry [source][target]
     * is written, in place if present and appended otherwise; else nothing changes.
     */
    method SetTransition(source: string, target: string, p: real)
      requires Valid()
      modifies this
      ensures Valid()
      ensures states == old(states)
      ensures source in states && target in states ==>
        transitions == old(transitions)[source := Put(old(transitions)[source], target, p)]
      ensures !(source in states && target in states) ==> transitions == old(transitions)
    {
      if source in states && target in states {
        var row := transitions[source];
        PutKeepsKeysDistinct(row, target, p);
        forall t | t in Keys(Put(row, target, p))
          ensures t in states
        {
          PutKeyIn(row, target, p, t);
        }
        transitions := transitions[source := Put(row, target, p)];
      }
    }

    /**
     * `validar_transiciones`: fails naming the first state, in insertion order, whose
     * row does not sum to 1 within the tolerance (an empty row sums to 0); passes
     * when every row is balanced.
     */
    method ValidateTransitions() returns (r: Outcome<string>)
      requires Valid()
      ensures r.Pass? <==> forall s | s in states :: Balanced(transitions[s])
      ensures r.Fail? ==>
        exists i | 0 <= i < |states| ::
          && states[i] == r.error
          && !Balanced(transitions[states[i]])
          && forall j | 0 <= j < i :: Balanced(transitions[states[j]])
    {
      for i := 0 to |states|
        invariant forall j | 0 <= j < i :: Balanced(transitions[states[j]])
      {
        var row := transitions[states[i]];
        if Abs(Total(row) - 1.0) > Tolerance {
          return Fail(states[i]);
        }
      }
      return Pass;
    }

    /**
     * `simular`: an unknown initial state fails; otherwise the walk takes `steps`
     * steps (none when `steps` is negative, as `range` gives), each to some
     * destination of the current row, and fails on reaching a stuck state, naming
     * the last state of the walk taken so far (at most `steps` states long).
     */
    method Simulate(initial: string, steps: int) returns (r: Result<seq<string>, ChainError>)
      ensures initial !in states ==> r == Err(UnknownState(initial))
      ensures r.Ok? ==>
        && |r.value| == (if steps < 0 then 0 else steps) + 1
        && r.value[0] == initial
        && IsWalk(r.value)
      ensures r.Err? && initial in states ==> r.error.NoTransitions? && Stuck(r.error.state)
      ensures r.Err? && initial in states ==>
        exists path :: 1 <= |path| <= steps && path[0] == initial && IsWalk(path) && path[|path| - 1] == r.error.state
      ensures r.Ok? && Valid() ==> forall s | s in r.value :: s in states
    {
      if initial !in states {
        return Err(UnknownState(initial));
      }
      var current := initial;
      var path := [current];
      var count := if steps < 0 then 0 else steps;
      for k := 0 to count
        invariant |path| == k + 1 && path[0] == initial && path[k] == current
        invariant IsWalk(path)
      {
        if current !in transitions || transitions[current] == [] {
          assert path[|path| - 1] == current;
          return Err(NoTransitions(current));
        }
        var targets := Keys(transitions[current]);
        assert targets[0] in targets;
        var next :| next in targets;
        path := path + [next];
        current := next;
      }
      if Valid() {
        WalkStaysInStates(path);
      }
      return Ok(path);
    }

    /** Under the invariant, a walk from a known state visits only known states. */
    lemma {:induction false} WalkStaysInStates(path: seq<string>)
      requires Valid()
      requires path != [] && path[0] in states && IsWalk(path)
      ensures forall s | s in path :: s in states
    {
      if |path| > 1 {
        var tail := path[1..];
        assert IsWalk(tail) by {
          forall i | 0 <= i < |tail| - 1
            ensures tail[i] in transitions && tail[i + 1] in Keys(transitions[tail[i]])
          {
            assert tail[i] == path[i + 1] && tail[i + 1] == path[i + 2];
          }
        }
        assert tail[0] == path[1] && path[0] in transitions;
        WalkStaysInStates(tail);
        assert path == [path[0]] + tail;
      }
    }
  }
}
