# Right-linear grammar to finite automaton: a verified model

This project models the core of the language simulator server
(`SimuladorLinguagemController`). The client supplies a right-linear grammar,
made of a start symbol and an ordered list of productions `De --Simbolo--> Para`,
where `Para` may be null. The server turns the grammar into a finite automaton
in one pass (`ConverterGramaticaEmAutomato`). It then decides whether an input
string is accepted (`AutomatoFinito.Aceita`). The entry point `VerificarString`
first refuses an absent or empty input. `VerificarString` matches against a grammar
injected by the host (line 115), not one sent by the client, because `DefinirGramatica`
discards the grammar it receives. The grammar that `CheckString` takes stands in for
that injected grammar.

Modules, following the source's structure:

- `Wrappers` (wrappers.dfy): `Option` (a possibly-null reference) and `Result` (an error return).
- `Grammar` (grammar.dfy): `Production` (`Producao`) and `Grammar` (`Gramatica`) as values.
  The core never mutates them.
  Also the synthetic accepting state `AcceptState` (the literal `"F"`) and the key and target a production writes.
- `Automaton` (automaton.dfy): the class `Automaton` (`AutomatoFinito`).
  It has set fields for the states, alphabet and accepting states, and a `map` field for the transition table.
  `Accepts` is the matching loop, proved against the pure `Run`/`Accepted` specification.
  The module also holds lemmas about that specification.
- `Builder` (builder.dfy): `Build`, the construction loop on a fresh `Automaton`.
  It is proved to end with exactly `Table`, `States` and `Alphabet` of the production list.
  These are folds over the list, in the loop's order.
  The module also holds lemmas on what those folds contain, including last-write-wins.
- `Simulator` (simulator.dfy): `CheckString`, the logic of `VerificarString`.
- `Scenarios` (scenarios.dfy): small grammars with known languages.

The builder seeds the accepting set with the literal `"F"` and copies the start symbol unchanged, so a grammar whose start symbol is `"F"` accepts the empty word (`Builder.EmptyWordIffStartIsAccept`), and a user state named `"F"` is the synthetic accepting state.

## Model

| member | source | states |
|---|---|---|
| `Automaton.Run` | VueApp.Server/Controllers/SimuladorLinguagemController.cs:45-58 | reading the empty word stays in the current state; a run over a non-empty word that does not get stuck ends in a target of the table |
| `Automaton.RunAppend` | VueApp.Server/Controllers/SimuladorLinguagemController.cs:47-57 | the loop consumes the input left to right: running `u + v` is running `u` and then `v` from where `u` ended, and stuck after `u` means stuck after `u + v` |
| `Automaton.StuckPrefixRejects` | VueApp.Server/Controllers/SimuladorLinguagemController.cs:47-57 | fail-closed: once the run gets stuck on a prefix, that prefix and every extension of it are rejected |
| `Automaton.OnlySingleCharSymbolsTaken` | VueApp.Server/Controllers/SimuladorLinguagemController.cs:49-50 | lookups use the one-character string of the current character, so the run over the table equals the run over its single-character entries alone; entries whose symbol is empty or longer than one Dafny `char` (a Unicode scalar value) are never taken |
| `Automaton.EmptyWordAccepted` | VueApp.Server/Controllers/SimuladorLinguagemController.cs:45-60 | the empty input is accepted iff the start state is an accepting state |
| `Automaton.Automaton.constructor` | VueApp.Server/Controllers/SimuladorLinguagemController.cs:35-41 | a new automaton has empty state, alphabet and accepting sets and an empty table |
| `Automaton.Automaton.Accepts` | VueApp.Server/Controllers/SimuladorLinguagemController.cs:43-61 | the loop returns false at the first missing transition, and otherwise returns whether the final state is accepting; this is exactly `Accepted` of the automaton's table, start state and accepting set |
| `Builder.Table` | VueApp.Server/Controllers/SimuladorLinguagemController.cs:71-85 | the contents of `Transicoes` after the loop has written the productions in order, each overwriting any earlier entry for its key |
| `Builder.States` | VueApp.Server/Controllers/SimuladorLinguagemController.cs:71-85 | the contents of `Estados` after the loop: each production's source, and its target when that is not null |
| `Builder.Alphabet` | VueApp.Server/Controllers/SimuladorLinguagemController.cs:71-85 | the contents of `Alfabeto` after the loop: each production's symbol |
| `Grammar.KeyOf` | VueApp.Server/Controllers/SimuladorLinguagemController.cs:74-80 | the key `(De, Simbolo)` that a production writes |
| `Grammar.TargetOf` | VueApp.Server/Controllers/SimuladorLinguagemController.cs:74-80 | the value a production writes: `"F"` when `Para` is null, otherwise `Para` |
| `Automaton.Accepted` | VueApp.Server/Controllers/SimuladorLinguagemController.cs:45-60 | the result of `Aceita`: false if the run gets stuck, otherwise whether the final state is accepting |
| `Builder.GrammarAccepts` | VueApp.Server/Controllers/SimuladorLinguagemController.cs:125-128 | build the automaton from the grammar, then match the word against it |
| `Builder.TableKeys` | VueApp.Server/Controllers/SimuladorLinguagemController.cs:71-85 | the table's keys are exactly the `(De, Simbolo)` pairs of the productions |
| `Builder.StatesAre` | VueApp.Server/Controllers/SimuladorLinguagemController.cs:73-81 | the states are exactly the sources of the productions plus their non-null targets; `"F"` is never added on its own; it is a state only if some production names it as its source or its target |
| `Builder.AlphabetIs` | VueApp.Server/Controllers/SimuladorLinguagemController.cs:84 | the alphabet is exactly the set of the productions' symbols |
| `Builder.LastWriteWins` | VueApp.Server/Controllers/SimuladorLinguagemController.cs:74-81 | a production that no later production with the same key overwrites decides that key's entry: its target, or `"F"` when it has none |
| `Builder.EntryIsLastWrite` | VueApp.Server/Controllers/SimuladorLinguagemController.cs:71-85 | every table entry was written by the last production with that key |
| `Builder.FoldTableWithinSets` | VueApp.Server/Controllers/SimuladorLinguagemController.cs:71-85 | every key's state is in the states and its symbol in the alphabet; every target is a state or `"F"` |
| `Builder.EmptyWordIffStartIsAccept` | VueApp.Server/Controllers/SimuladorLinguagemController.cs:67-69 | a built automaton accepts the empty word iff the grammar's start symbol is `"F"` |
| `Builder.UnreachableStartRejectsAll` | VueApp.Server/Controllers/SimuladorLinguagemController.cs:65-88 | if the start symbol is neither `"F"` nor any production's source, the built automaton rejects every word, the empty one included |
| `Builder.Build` | VueApp.Server/Controllers/SimuladorLinguagemController.cs:65-88 | the new automaton's start state is the grammar's start symbol and its accepting set is `{"F"}`; its states, alphabet and table are those of the whole production list in order; the loop keeps the table within the states and alphabet |
| `Simulator.CheckString` | VueApp.Server/Controllers/SimuladorLinguagemController.cs:119-128 | an absent or empty input is refused with `EmptyInput`; any other input gets the acceptance verdict of the automaton built from the grammar |
| `Scenarios.SingleProduction` | VueApp.Server/Controllers/SimuladorLinguagemController.cs:43-88 | the grammar `S -> a` accepts `"a"` and rejects `""`, `"aa"` and `"b"` |
| `Scenarios.Chained` | VueApp.Server/Controllers/SimuladorLinguagemController.cs:43-88 | the grammar `S -> aA, A -> b` accepts `"ab"` and rejects `"a"`, `"b"`, `"ba"` and `"abc"` |
| `Scenarios.DuplicateKeyKeepsLast` | VueApp.Server/Controllers/SimuladorLinguagemController.cs:76-80 | with productions `S -> aA` then `S -> aB`, the entry for `(S, a)` is `B` |

## Left out

- The ASP.NET Core layer is not modelled: routing, model binding, `BadRequest`/`Ok`/`StatusCode(500)` responses and their message texts, and the try/catch wrappers. `CheckString` returns a `Result` in their place.
- Logging through `ILogger` is not modelled, because it is an outside side effect.
- `DefinirGramatica` is not modelled. It builds an automaton and discards it, so its only observable behaviour is refusing a null grammar.
- A null grammar is excluded by the types: every grammar in the model is present. A null production list or a null production, which makes the loop at lines 71-73 throw and the endpoint answer with status 500, is excluded by the types too.
- Null `De`, `Simbolo` and `SimboloInicial` are not modelled, because the source gives them no special meaning. Only a null `Para` has one, and it is modelled as `None`.
- `Automaton.Automaton.constructor` uses `""` for the start state, which is null in the source until the builder assigns it.
- The input and symbols are sequences of Dafny `char`s, which are Unicode scalar values, not UTF-16 code units. The source's `foreach` (lines 47-49) splits a character outside the Basic Multilingual Plane into two code units, so it never takes a one-character symbol such as `"\U{1F600}"`. The model takes such a symbol as one character.
- The client files `vueapp.client/src/main.js` and `vueapp.client/src/router/index.js` are not part of this model. They only start the user interface.
