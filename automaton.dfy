/**
 * The finite automaton and its matcher (SimuladorLinguagemController.AutomatoFinito).
 * `Run` and `Accepted` specify what `Automaton.Accepts` computes; the lemmas
 * state the consequences of the one-character-at-a-time, fail-closed loop.
 */
module Automaton {
  import opened Wrappers
  import opened Grammar

  /**
   * The state reached from `q` after reading `w` one character at a time,
   * looking each character up as a one-character symbol; `None` as soon as a
   * transition is missing.
   */
  function Run(t: map<Key, string>, q: string, w: string): (r: Option<string>)
    ensures w == [] ==> r == Some(q)
    ensures r.Some? && w != [] ==> r.value in t.Values
    decreases |w|
  {
    if w == [] then Some(q)
    else if (q, [w[0]]) in t then Run(t, t[(q, [w[0]])], w[1..])
    else None
  }

  /** `w` is accepted from `q`: the run does not get stuck and ends in an accepting state. */
  predicate Accepted(t: map<Key, string>, q: string, accepting: set<string>, w: string)
  {
    match Run(t, q, w)
    case None => false
    case Some(last) => last in accepting
  }

  /** Reading `u + v` is reading `u`, then reading `v` from where `u` left off. */
  lemma {:induction false} RunAppend(t: map<Key, string>, q: string, u: string, v: string)
    ensures Run(t, q, u + v) == match Run(t, q, u)
                                case None => None
                                case Some(q') => Run(t, q', v)
    decreases |u|
  {
    if u == [] {
      assert u + v == v;
    } else {
      assert (u + v)[0] == u[0];
      assert (u + v)[1..] == u[1..] + v;
      if (q, [u[0]]) in t {
        RunAppend(t, t[(q, [u[0]])], u[1..], v);
      }
    }
  }

  /**
   * Fail-closed: once the run is stuck on a prefix `u`, the word `u` and every
   * extension of it are rejected.
   */
  lemma StuckPrefixRejects(t: map<Key, string>, q: string, accepting: set<string>, u: string, v: string)
    requires Run(t, q, u).None?
    ensures Run(t, q, u + v).None?
    ensures !Accepted(t, q, accepting, u) && !Accepted(t, q, accepting, u + v)
  {
    RunAppend(t, q, u, v);
  }

  /** The entries of `t` whose symbol is exactly one character long. */
  function SingleCharEntries(t: map<Key, string>): map<Key, string>
  {
    map k | k in t && |k.1| == 1 :: t[k]
  }

  /**
   * Entries whose symbol is not a single character are never taken: the run
   * over `t` is the run over its single-character entries alone.
   */
  lemma {:induction false} OnlySingleCharSymbolsTaken(t: map<Key, string>, q: string, w: string)
    ensures Run(t, q, w) == Run(SingleCharEntries(t), q, w)
    decreases |w|
  {
    if w != [] && (q, [w[0]]) in t {
      OnlySingleCharSymbolsTaken(t, t[(q, [w[0]])], w[1..]);
    }
  }

  /** The empty word is accepted exactly when the start state is accepting. */
  lemma EmptyWordAccepted(t: map<Key, string>, q: string, accepting: set<string>)
    ensures Accepted(t, q, accepting, []) <==> q in accepting
  {
  }

  /** AutomatoFinito: states, alphabet, start state, accepting states and transition table. */
  class Automaton {
    var states: set<string>
    var alphabet: set<string>
    var start: string
    var accepting: set<string>
    var transitions: map<Key, string>

    /**
     * The table mentions only known states and symbols: every key's state is
     * a state, its symbol is in the alphabet, and every target is a state or
     * an accepting state.
     */
    predicate TableWithinSets()
      reads this
    {
      forall k :: k in transitions ==>
        k.0 in states && k.1 in alphabet && transitions[k] in states + accepting
    }

    /** `new AutomatoFinito()`: empty sets and table; the start state (null there) is "" until assigned. */
    constructor ()
      ensures states == {} && alphabet == {} && start == ""
      ensures accepting == {} && transitions == map[]
    {
      states := {};
      alphabet := {};
      start := "";
      accepting := {};
      transitions := map[];
    }

    /**
     * Aceita: follows the table from the start state one character at a time,
     * rejects at the first missing transition, and otherwise accepts iff the
     * final state is accepting.
     */
    method Accepts(input: string) returns (accepted: bool)
      ensures accepted == Accepted(transitions, start, accepting, input)
    {
      var current := start;
      for i := 0 to |input|
        invariant Run(transitions, start, input) == Run(transitions, current, input[i..])
      {
        assert input[i..][0] == input[i] && input[i..][1..] == input[i + 1..];
        var key := (current, [input[i]]);
        if key in transitions {
          current := transitions[key];
        } else {
          return false;
        }
      }
      accepted := current in accepting;
    }
  }
}
