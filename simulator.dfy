/**
 * The logic of the VerificarString endpoint: refuse an absent or empty
 * input, otherwise build the automaton from the grammar and run it.
 */
module Simulator {
  import opened Wrappers
  import opened Grammar
  import opened Builder

  /** Why an input was refused before matching. */
  datatype CheckError = EmptyInput

  /**
   * VerificarString: an absent (null) or empty input is refused with
   * `EmptyInput`; any other input is accepted or rejected exactly as the
   * grammar's language says.
   */
  method CheckString(g: Grammar, input: Option<string>) returns (r: Result<bool, CheckError>)
    ensures r.Failure? <==> input.None? || input.value == []
    ensures r.Failure? ==> r.error == EmptyInput
    ensures r.Success? ==> r.value == GrammarAccepts(g, input.value)
  {
    if input.None? || input.value == [] {
      return Failure(EmptyInput);
    }
    var automaton := Build(g);
    var accepted := automaton.Accepts(input.value);
    return Success(accepted);
  }
}
