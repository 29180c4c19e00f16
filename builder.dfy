/**
 * ConverterGramaticaEmAutomato: one pass over the productions, in order,
 * filling a fresh automaton. `Table`, `States` and `Alphabet` give what the
 * pass has built after a prefix of the productions; `Build` is proved to end
 * with exactly them, and the lemmas state what they contain.
 */
module Builder {
  import opened Grammar
  import opened Automaton

  /**
   * The transition table after writing the productions of `ps` in order,
   * each one overwriting any earlier entry for its key.
   */
  function Table(ps: seq<Production>): map<Key, string>
    decreases |ps|
  {
    if ps == [] then map[]
    else Table(ps[..|ps| - 1])[KeyOf(ps[|ps| - 1]) := TargetOf(ps[|ps| - 1])]
  }

  /** The states after the productions of `ps`: every source, and every target that is not null. */
  function States(ps: seq<Production>): set<string>
    decreases |ps|
  {
    if ps == [] then {}
    else
      var last := ps[|ps| - 1];
      States(ps[..|ps| - 1]) + {last.from} + (if last.to.Some? then {last.to.value} else {})
  }

  /** The alphabet after the productions of `ps`: exactly their symbols. */
  function Alphabet(ps: seq<Production>): set<string>
    decreases |ps|
  {
    if ps == [] then {}
    else Alphabet(ps[..|ps| - 1]) + {ps[|ps| - 1].symbol}
  }

  /** The table's keys are exactly the (source, symbol) pairs of the productions. */
  lemma {:induction false} TableKeys(ps: seq<Production>)
    ensures Table(ps).Keys == set p | p in ps :: KeyOf(p)
    decreases |ps|
  {
    if ps != [] {
      var init := ps[..|ps| - 1];
      assert ps == init + [ps[|ps| - 1]];
      TableKeys(init);
    }
  }

  /** The states are exactly the productions' sources and their non-null targets. */
  lemma {:induction false} StatesAre(ps: seq<Production>)
    ensures States(ps) == (set p | p in ps :: p.from) + (set p | p in ps && p.to.Some? :: p.to.value)
    decreases |ps|
  {
    if ps != [] {
      var init := ps[..|ps| - 1];
      assert ps == init + [ps[|ps| - 1]];
      StatesAre(init);
    }
  }

  /** The alphabet is exactly the set of the productions' symbols. */
  lemma {:induction false} AlphabetIs(ps: seq<Production>)
    ensures Alphabet(ps) == set p | p in ps :: p.symbol
    decreases |ps|
  {
    if ps != [] {
      var init := ps[..|ps| - 1];
      assert ps == init + [ps[|ps| - 1]];
      AlphabetIs(init);
    }
  }

  /**
   * Last write wins: a production that no later production shadows (same
   * source and symbol) decides its key's entry.
   */
  lemma {:induction false} LastWriteWins(ps: seq<Production>, i: nat)
    requires i < |ps|
    requires forall j :: i < j < |ps| ==> KeyOf(ps[j]) != KeyOf(ps[i])
    ensures KeyOf(ps[i]) in Table(ps) && Table(ps)[KeyOf(ps[i])] == TargetOf(ps[i])
    decreases |ps|
  {
    if i < |ps| - 1 {
      var init := ps[..|ps| - 1];
      LastWriteWins(init, i);
    }
  }

  /** Every entry of the table was written by the last production with its key. */
  lemma {:induction false} EntryIsLastWrite(ps: seq<Production>, k: Key)
    requires k in Table(ps)
    ensures exists i :: 0 <= i < |ps| && KeyOf(ps[i]) == k && Table(ps)[k] == TargetOf(ps[i]) &&
                        forall j :: i < j < |ps| ==> KeyOf(ps[j]) != k
    decreases |ps|
  {
    var n := |ps| - 1;
    var init := ps[..n];
    assert Table(ps) == Table(init)[KeyOf(ps[n]) := TargetOf(ps[n])];
    if KeyOf(ps[n]) == k {
      assert Table(ps)[k] == TargetOf(ps[n]);
    } else {
      EntryIsLastWrite(init, k);
      var i :| 0 <= i < n && KeyOf(init[i]) == k && Table(init)[k] == TargetOf(init[i]) &&
                forall j :: i < j < n ==> KeyOf(init[j]) != k;
      assert ps[i] == init[i];
      assert forall j :: i < j < |ps| ==> KeyOf(ps[j]) != k by {
        forall j | i < j < |ps| ensures KeyOf(ps[j]) != k {
          if j < n { assert ps[j] == init[j]; }
        }
      }
    }
  }

  /**
   * The fold form of `Automaton.TableWithinSets`: every key's state is a state
   * and its symbol is in the alphabet, and every target is a state or `AcceptState`.
   */
  lemma {:induction false} FoldTableWithinSets(ps: seq<Production>)
    ensures forall k :: k in Table(ps) ==>
              k.0 in States(ps) && k.1 in Alphabet(ps) && Table(ps)[k] in States(ps) + {AcceptState}
  {
    StatesAre(ps);
    AlphabetIs(ps);
    forall k | k in Table(ps)
      ensures k.0 in States(ps) && k.1 in Alphabet(ps) && Table(ps)[k] in States(ps) + {AcceptState}
    {
      EntryIsLastWrite(ps, k);
      var i :| 0 <= i < |ps| && KeyOf(ps[i]) == k && Table(ps)[k] == TargetOf(ps[i]) &&
                forall j :: i < j < |ps| ==> KeyOf(ps[j]) != k;
      assert ps[i] in ps;
    }
  }

  /** The language of a grammar: the words its built automaton accepts. */
  predicate GrammarAccepts(g: Grammar, w: string)
  {
    Accepted(Table(g.productions), g.start, {AcceptState}, w)
  }

  /** The empty word is accepted exactly when the start symbol is the literal "F". */
  lemma EmptyWordIffStartIsAccept(g: Grammar)
    ensures GrammarAccepts(g, []) <==> g.start == AcceptState
  {
  }

  /**
   * A start symbol that is neither "F" nor the source of any production
   * leaves a grammar whose automaton rejects every word, the empty one included.
   */
  lemma UnreachableStartRejectsAll(g: Grammar, w: string)
    requires g.start != AcceptState
    requires forall p :: p in g.productions ==> p.from != g.start
    ensures !GrammarAccepts(g, w)
  {
    if w != [] {
      TableKeys(g.productions);
      assert (g.start, [w[0]]) !in Table(g.productions);
    }
  }

  /** One more production: the folds over `ps[..i + 1]` extend those over `ps[..i]` by `ps[i]`. */
  lemma PrefixStep(ps: seq<Production>, i: nat)
    requires i < |ps|
    ensures Table(ps[..i + 1]) == Table(ps[..i])[KeyOf(ps[i]) := TargetOf(ps[i])]
    ensures States(ps[..i + 1]) == States(ps[..i]) + {ps[i].from} +
                                   (if ps[i].to.Some? then {ps[i].to.value} else {})
    ensures Alphabet(ps[..i + 1]) == Alphabet(ps[..i]) + {ps[i].symbol}
  {
    assert ps[..i + 1][..i] == ps[..i];
  }

  /**
   * ConverterGramaticaEmAutomato: the start state is the grammar's, the
   * accepting set is {"F"}, and the states, alphabet and table are those of
   * all the productions written in order.
   */
  method Build(g: Grammar) returns (a: Automaton)
    ensures fresh(a)
    ensures a.start == g.start && a.accepting == {AcceptState}
    ensures a.states == States(g.productions)
    ensures a.alphabet == Alphabet(g.productions)
    ensures a.transitions == Table(g.productions)
    ensures a.TableWithinSets()
  {
    var ps := g.productions;
    a := new Automaton();
    a.start := g.start;
    a.accepting := a.accepting + {AcceptState};
    for i := 0 to |ps|
      invariant a.start == g.start && a.accepting == {AcceptState}
      invariant a.states == States(ps[..i])
      invariant a.alphabet == Alphabet(ps[..i])
      invariant a.transitions == Table(ps[..i])
      invariant a.TableWithinSets()
    {
      var p := ps[i];
      PrefixStep(ps, i);
      a.states := a.states + {p.from};
      match p.to {
        case None =>
          a.transitions := a.transitions[(p.from, p.symbol) := AcceptState];
        case Some(s) =>
          a.transitions := a.transitions[(p.from, p.symbol) := s];
          a.states := a.states + {s};
      }
      a.alphabet := a.alphabet + {p.symbol};
      forall k | k in a.transitions
        ensures k.0 in a.states && k.1 in a.alphabet && a.transitions[k] in a.states + a.accepting
      {
        if k == (p.from, p.symbol) {
          assert a.transitions[k] == TargetOf(p);
        }
      }
    }
    assert ps[..|ps|] == ps;
  }
}
