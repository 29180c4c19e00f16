/** Small grammars whose languages are known, checked against the model. */
module Scenarios {
  import opened Wrappers
  import opened Grammar
  import opened Builder

  /** S -> a: accepts "a" and rejects "", "aa" and "b". */
  lemma SingleProduction()
    ensures var g := Grammar({"a"}, {"S"}, "S", [Production("S", "a", None)]);
            GrammarAccepts(g, "a") && !GrammarAccepts(g, "") &&
            !GrammarAccepts(g, "aa") && !GrammarAccepts(g, "b")
  {
  }

  /** S -> aA, A -> b: accepts "ab" and rejects "a", "b", "ba" and "abc". */
  lemma Chained()
    ensures var g := Grammar({"a", "b"}, {"S", "A"}, "S",
                             [Production("S", "a", Some("A")), Production("A", "b", None)]);
            GrammarAccepts(g, "ab") && !GrammarAccepts(g, "a") && !GrammarAccepts(g, "b") &&
            !GrammarAccepts(g, "ba") && !GrammarAccepts(g, "abc")
  {
    var ps := [Production("S", "a", Some("A")), Production("A", "b", None)];
    assert Table(ps) == map[("S", "a") := "A", ("A", "b") := AcceptState] by {
      assert ps[..1] == [ps[0]] && ps[..1][..0] == [];
    }
  }

  /** S -> aA followed by S -> aB: the entry for (S, a) is B, the later write. */
  lemma DuplicateKeyKeepsLast()
    ensures Table([Production("S", "a", Some("A")), Production("S", "a", Some("B"))])[("S", "a")] == "B"
  {
    LastWriteWins([Production("S", "a", Some("A")), Production("S", "a", Some("B"))], 1);
  }
}
