/**
 * The grammar model of the simulator: a right-linear grammar given as a
 * start symbol and an ordered list of productions
 * (SimuladorLinguagemController.Producao and .Gramatica).
 */
module Grammar {
  import opened Wrappers

  /** The synthetic accepting state every built automaton gets ("F"). */
  const AcceptState: string := "F"

  /**
   * One production `from --symbol--> to`. A missing `to` (null in the
   * source) means "consuming `symbol` from `from` ends the word", which the
   * builder turns into a transition to `AcceptState`.
   */
  datatype Production = Production(from: string, symbol: string, to: Option<string>)

  /**
   * A grammar as the caller supplies it. The declared terminal and
   * non-terminal sets are carried along but never consulted by the builder.
   */
  datatype Grammar = Grammar(
    terminals: set<string>,
    nonTerminals: set<string>,
    start: string,
    productions: seq<Production>)

  /** A key of the transition table: (state, symbol). */
  type Key = (string, string)

  /** The table key a production writes. */
  function KeyOf(p: Production): Key
  {
    (p.from, p.symbol)
  }

  /** The state a production's transition leads to: its `to`, or `AcceptState` when it has none. */
  function TargetOf(p: Production): string
  {
    match p.to
    case None => AcceptState
    case Some(s) => s
  }
}
