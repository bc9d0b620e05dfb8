# hoya core in Dafny

This project models the core of hoya, a parser generator written in Rust. The core has three parts:

- **The lexers.**
  - `LexerState` (src/lex/lexer_state.rs) is a tokenizer with lexical states. It keeps one ordered rule list per state and a stack of remembered states. After each match it applies the push and pop operations that the token factory requests. It latches at end of input and can dump and restore its cursor and stack.
  - `Lexer` (src/lex/lexer.rs) is the older single-state tokenizer.
  - `TokenFactory`, `Token` and `Position` are the builder and the values they share.
- **The ABNF front end.**
  - src/abnf/parser.rs defines nine lexical states and registers the regex rules of each. Every rule has a factory that emits a token type and stack operations.
  - `AbnfRule` and `AbnfRules` (src/abnf/rule.rs, src/abnf/rules.rs) build a table of named rules from `name = body;` and `name =/ body;` statements.
- **The grammar interpreter.** `GrammarParser` (src/yacc/parser.rs) walks a rule's definition, pulls one token per terminal, and builds a tree of `GrammarTreeNode`s (src/yacc/grammar.rs).

The model follows the source's own shape:

- Objects whose fields the source updates in place are classes with `modifies` clauses: `LexerState`, `LexerTokenFactory`, `Lexer`, `TokenFactory`, `AbnfRule`, `AbnfRules`, `GrammarTreeNode` and `GrammarParser`.
- Each stateful method is proved against a function on values.
  - `LexerState.Next` equals `NextSpec`, and `Lexer.Next` equals `LexerNextSpec`.
  - `AbnfRules.Parse` equals `Parsed`.
  - `GrammarParser.Parse` equals `InterpretEntry`.
- The properties are proved about those functions.
- The ABNF lexical states also appear as a small machine on an enumeration (`AbnfParser.Step`). `AbnfEngine.EngineFollowsMachine` proves that the engine, configured the way `new_lexer_state` configures it, makes exactly the machine's moves.
- `AbnfBalance` proves that every well-formed rule takes the machine from INIT back to INIT.

Modules:

- Shared definitions:
  - `Wrappers`: Option and Result.
  - `Positions`, `Tokens` and `StateChanges`: the value types.
  - `StateStacks`: push, pop and apply on a stack of states.
  - `LexCore`: the regex oracle, skip-ignore, the cursor and first match.
- One module per core file:
  - `TokenFactories`, `LexerStates` and `Lexers` for the lexers.
  - `AbnfDefinitions`, `AbnfParser`, `AbnfEngine`, `AbnfBalance`, `AbnfRuleEntry` and `AbnfRuleTable` for the ABNF front end.
  - `GrammarTrees` and `GrammarParsers` for the grammar interpreter.

## Model

| member | source | states |
|---|---|---|
| Positions.NewZero | src/lex/position.rs:15-17 | the zero position is line 0, column 0 |
| Positions.PartialCmp | src/lex/position.rs:28-39 | the comparison is lexicographic on (line, column) and never answers None |
| Positions.CompareEqualIffSame | src/lex/position.rs:28-39 | the comparison answers Equal exactly for equal positions |
| Positions.CompareAntisymmetric | src/lex/position.rs:28-39 | swapping the operands swaps Less and Greater and keeps Equal |
| Positions.CompareTransitive | src/lex/position.rs:28-39 | Less is transitive, and so is not-Greater |
| Positions.CompareTotal | src/lex/position.rs:28-39 | every pair of positions is related by exactly one of the three answers |
| Tokens.Token.SetLocation | src/lex/token.rs:20-22 | attaches the span (begin, end) and keeps the type and the text |
| Tokens.Token.GetLocation | src/lex/token.rs:32-36 | returns the attached span, or (0,0)..(0,0) when the token has none |
| Tokens.NewToken | src/lex/token.rs:12-18 | the token has the given type and text and no location |
| Tokens.NewTokenHasZeroLocation | src/lex/token.rs:12-18 | a new token reports the zero span |
| Tokens.SetThenGetLocation | src/lex/token.rs:20-36 | get after set returns exactly the span that was set; setting the same span twice changes nothing |
| StateStacks.Popped | src/lex/lexer_state.rs:122-128 | a pop of n leaves max(size − n, 0) remembered states, and they form a prefix of the old stack |
| StateStacks.Pushed | src/lex/lexer_state.rs:117-120 | `push`: the new state becomes current and the old current state goes on top of the stack; `PushThenPop` is its partner |
| StateStacks.Applied | src/lex/lexer_state.rs:130-135 | `change_state`: a push operation is `Pushed`, a pop operation of n is `Popped` by n |
| StateStacks.AppliedAll | src/lex/lexer_state.rs:288-291 | the operations of one state change applied one after another in list order; `AppliedAllConcat` and `AppliedAllMap` are its laws |
| StateStacks.PushThenPop | src/lex/lexer_state.rs:117-128 | a push followed by a pop of one restores both the current state and the stack |
| StateStacks.PoppedClosedForm | src/lex/lexer_state.rs:122-128 | a pop of n makes the n-th most recently remembered state current and drops it and everything above it; a pop past the bottom stops at the oldest remembered state |
| StateStacks.PopEmptyIsNoOp | src/lex/lexer_state.rs:122-128 | a pop on an empty stack changes nothing |
| StateStacks.AppliedAllConcat | src/lex/lexer_state.rs:288-291 | applying two operation lists one after the other is the same as applying their concatenation |
| StateStacks.PoppedMap | src/lex/lexer_state.rs:122-128 | renaming the states commutes with pop |
| StateStacks.AppliedAllMap | src/lex/lexer_state.rs:117-135 | renaming the states commutes with applying any operation list |
| LexCore.SkipIgnore | src/lex/lexer_state.rs:233-246 | skipping never moves backwards; from inside the text it stops at or before the end; with no ignore pattern, or from past the end, it does not move; where it stops, the ignore pattern does not match |
| LexCore.SkipIgnoreIdempotent | src/lex/lexer_state.rs:233-246 | skipping again from where a skip stopped does not move |
| LexCore.Cursor.CurrentPosition | src/lex/lexer_state.rs:294-296 | the position is the current line, with the column counted from the line start |
| LexCore.Cursor.Advance | src/lex/lexer_state.rs:280-286 | the offset grows by the increment; only a non-zero line count moves the line and restarts the line at the new offset; a valid cursor stays valid |
| LexCore.FirstMatch | src/lex/lexer_state.rs:137-146 | gives the first rule in registration order whose pattern matches; no earlier rule matches; None exactly when no rule matches |
| LexCore.FirstMatchSamePatterns | src/lex/lexer_state.rs:137-146 | two rule lists with the same patterns in the same order pick the same rule |
| LexCore.MatchedText | src/lex/lexer_state.rs:141-143 | the matched text is a prefix of the rest of the input, with the length the regex reports |
| TokenFactories.TokenFactory.constructor | src/lex/token_factory.rs:12-20 | nothing is overridden and no stack operation is requested |
| TokenFactories.TokenFactory.Offset | src/lex/token_factory.rs:22-26 | overrides the advance |
| TokenFactories.TokenFactory.Lines | src/lex/token_factory.rs:28-32 | overrides the line count |
| TokenFactories.TokenFactory.PushState | src/lex/token_factory.rs:34-38 | requests a push after the earlier requests |
| TokenFactories.TokenFactory.PopState | src/lex/token_factory.rs:40-44 | requests a pop after the earlier requests |
| TokenFactories.TokenFactory.Build | src/lex/token_factory.rs:46-55 | the token has the factory's type and the matched text and no location; the advance defaults to the text's length and the line count to 0; the requested operations are passed on in order |
| TokenFactories.PendingAsWritten | src/lex/token_factory.rs:34-44 | as written, at most one operation is pending: none when no call was made, otherwise only the last call's |
| LexerStates.EofResult | src/lex/lexer_state.rs:308-312 | the end token when an end factory is set, otherwise failure |
| LexerStates.Lookup | src/lex/lexer_state.rs:137-146 | only the current state's rule list is consulted; the answer is the first matching rule's matched text and factory; None when the state has no list or nothing in it matches |
| LexerStates.ScanStart | src/lex/lexer_state.rs:317 | scanning starts at the offset after the ignored text, with the line unchanged |
| LexerStates.NextSpec | src/lex/lexer_state.rs:316-331 | the cursor never moves backwards. Once the end latch is set, every call answers the end token and changes nothing. At the end of the text, or when only ignorable text is left, the call answers the end token and sets the latch. Otherwise the call fails exactly when no rule of the current state matches, and a failure leaves the stack and the custom state alone. A match gives the factory's token, located from the scan start to the advanced cursor, with the factory's operations applied to the stack |
| LexerStates.NextEndIsSticky | src/lex/lexer_state.rs:308-318 | after a call that sets the end latch, every later call answers the same and changes nothing |
| LexerStates.RestoreDumpRoundTrip | src/lex/lexer_state.rs:148-155 | restoring a dump brings back the dumped cursor, current state and stack; the end latch and the custom state keep their present values |
| LexerStates.Dumped | src/lex/lexer_state.rs:214-221 | the snapshot `dump` takes: offset, line, line start, the stack and the current state |
| LexerStates.Restored | src/lex/lexer_state.rs:224-229 | the view `restore` leaves: cursor, stack and current state from the snapshot, the end latch and the custom state unchanged |
| LexerStates.LexerTokenFactory.constructor | src/lex/lexer_state.rs:90-96 | starts in the given state with an empty stack and no rules |
| LexerStates.LexerTokenFactory.Reset | src/lex/lexer_state.rs:98-102 | back to the given state, with an empty stack and no rules |
| LexerStates.LexerTokenFactory.Add | src/lex/lexer_state.rs:104-115 | appends the rule to the state's list, creating the list if it is missing; the other lists are untouched |
| LexerStates.LexerTokenFactory.Push | src/lex/lexer_state.rs:117-120 | the stack becomes `Pushed` of the old one |
| LexerStates.LexerTokenFactory.Pop | src/lex/lexer_state.rs:122-128 | the loop's rounds together equal `Popped` |
| LexerStates.LexerTokenFactory.ChangeState | src/lex/lexer_state.rs:130-135 | applies one push or pop |
| LexerStates.LexerTokenFactory.Get | src/lex/lexer_state.rs:137-146 | is `Lookup` on the current state |
| LexerStates.LexerTokenFactory.Dump | src/lex/lexer_state.rs:148-150 | the snapshot holds the stack and the current state |
| LexerStates.LexerTokenFactory.Restore | src/lex/lexer_state.rs:152-155 | the stack and the current state are taken from the snapshot |
| LexerStates.LexerState.constructor | src/lex/lexer_state.rs:175-189 | the cursor is at offset 0 of line 1, with the latch clear, the given state, an empty stack, no ignore pattern, no end factory and no rules |
| LexerStates.LexerState.Reset | src/lex/lexer_state.rs:192-203 | as at construction, with the new custom state, but the ignore pattern is kept |
| LexerStates.LexerState.Dump | src/lex/lexer_state.rs:214-221 | the snapshot is `Dumped` of the current view |
| LexerStates.LexerState.Restore | src/lex/lexer_state.rs:224-229 | the view becomes `Restored` of the snapshot; the configuration is untouched |
| LexerStates.LexerState.SkipIgnore | src/lex/lexer_state.rs:233-246 | the loop ends at `LexCore.SkipIgnore`'s offset and reports whether the text is used up |
| LexerStates.LexerState.SetIgnore | src/lex/lexer_state.rs:250-256 | installs the ignore pattern |
| LexerStates.LexerState.SetEof | src/lex/lexer_state.rs:260-264 | installs the end token |
| LexerStates.LexerState.AddToken | src/lex/lexer_state.rs:269-278 | appends the rule to the given state's list |
| LexerStates.LexerState.StateChange | src/lex/lexer_state.rs:280-292 | advances the cursor, then applies the operations in list order |
| LexerStates.LexerState.GetCurrentPosition | src/lex/lexer_state.rs:294-296 | is the cursor's `CurrentPosition` |
| LexerStates.LexerState.NextToken | src/lex/lexer_state.rs:298-306 | past the end of the text: no token; otherwise the looked-up factory applied to the old custom state and the matched text |
| LexerStates.LexerState.NextEof | src/lex/lexer_state.rs:308-312 | sets the latch and answers `EofResult` |
| LexerStates.LexerState.Next | src/lex/lexer_state.rs:316-331 | the answer and the new state are exactly `NextSpec` of the old state |
| Lexers.LexerNextSpec | src/lex/lexer.rs:111-130 | the cursor never moves backwards. At the end of the text the call answers the end token, again and again. When only ignorable text is left it answers the end token past that text. Otherwise it fails exactly when no rule matches, and a failure leaves the cursor after the ignored text |
| Lexers.LexerEndIsStable | src/lex/lexer.rs:111-130 | once a call leaves the cursor at or past the end, every later call answers the end token and does not move |
| Lexers.LiftRules | src/lex/lexer.rs:79-85 | the lifted list keeps every pattern and position |
| Lexers.LexerAgreesWithEngine | src/lex/lexer.rs:100-130 | `Lexer` answers as `LexerState` does with one state and factories that request no stack operations, with the same cursor, and with the stack and the custom state untouched |
| Lexers.Lexer.constructor | src/lex/lexer.rs:19-28 | the cursor is at offset 0 of line 1, with no ignore pattern, no rules and no end token |
| Lexers.Lexer.Reset | src/lex/lexer.rs:31-39 | back to the start, with the ignore pattern, the rules and the end token dropped |
| Lexers.Lexer.SkipIgnore | src/lex/lexer.rs:43-56 | the loop ends at `LexCore.SkipIgnore`'s offset and reports whether the text is used up |
| Lexers.Lexer.SetIgnore | src/lex/lexer.rs:60-66 | installs the ignore pattern |
| Lexers.Lexer.SetEof | src/lex/lexer.rs:70-74 | installs the end token |
| Lexers.Lexer.AddToken | src/lex/lexer.rs:79-85 | appends the rule after the existing ones |
| Lexers.Lexer.IncrementOffset | src/lex/lexer.rs:87-94 | advances the cursor as `Cursor.Advance` |
| Lexers.Lexer.GetCurrentPosition | src/lex/lexer.rs:96-98 | is the cursor's `CurrentPosition` |
| Lexers.Lexer.NextToken | src/lex/lexer.rs:100-107 | past the end of the text: no token; otherwise the factory of the first matching rule, applied to its matched text |
| Lexers.Lexer.Next | src/lex/lexer.rs:111-130 | the answer and the new cursor are exactly `LexerNextSpec` of the old cursor |
| AbnfParser.StateNameInjective | src/abnf/parser.rs:35-128 | the nine state names are pairwise distinct |
| AbnfParser.StateName | src/abnf/parser.rs:40-128 | the `ABNF_STATE_*` name of each of the nine states; `StateNameInjective` shows that no two share a name |
| AbnfParser.ClassRegex | src/abnf/parser.rs:19-33 | the `TOKEN_*_REGEX` of each class; every one is anchored with `^` at the start of the remaining text |
| AbnfParser.ClassType | src/abnf/parser.rs:6-17 | the `TOKEN_*_TYPE` each class is emitted with; the binary, decimal, hexadecimal and string terminals share `abnf_token_terminal` |
| AbnfParser.Row | src/abnf/parser.rs:130-652 | the factory each state registers for each class (the token type and the stack operations of the `abnf_*` functions, joined with the nine registration lists); the token type depends on the class only, never on the state |
| AbnfParser.Order | src/abnf/parser.rs:422-652 | the classes each state registers, in registration order; `OrderMatchesRows` ties it to `Row` |
| AbnfParser.NameRegisteredFirst | src/abnf/parser.rs:422-652 | NAME is the first class of every state except DEFINER, whose only class is the definer |
| AbnfParser.OrderMatchesRows | src/abnf/parser.rs:415-655 | each state registers exactly the classes it has a factory for, each one once |
| AbnfParser.Step | src/abnf/parser.rs:130-397 | a token is rejected exactly when the current state has no rule for its class; otherwise the row's operations are applied to the stack |
| AbnfParser.RunAppend | src/abnf/parser.rs:130-397 | running two class sequences one after the other is the same as running their concatenation |
| AbnfParser.InitAcceptsOnlyName | src/abnf/parser.rs:423-429 | INIT accepts only a name, which enters DEFINER above INIT |
| AbnfParser.DefinerAcceptsOnlyDefiner | src/abnf/parser.rs:432-438 | DEFINER accepts only `=` or `=/`, which puts REQUIRE_ELEMENTS in its place |
| AbnfParser.RequireStatesRejectClosers | src/abnf/parser.rs:441-624 | a require state rejects `;`, `/`, `)` and `]` |
| AbnfParser.VariableRequireRejects | src/abnf/parser.rs:550-596 | after a repetition prefix, `[`, another prefix, `;`, `/`, `)` and `]` are rejected |
| AbnfParser.EndOnlyInElements | src/abnf/parser.rs:469-491 | `;` is accepted in ELEMENTS and nowhere else |
| AbnfParser.ChooseKeepsDepth | src/abnf/parser.rs:358-381 | `/` swaps a region's elements state for its require state at the same depth |
| AbnfParser.StepAsWritten | src/abnf/parser.rs:130-397 | as written, a transition is rejected exactly where `Step` rejects it, but only the last requested operation is applied |
| AbnfParser.AsWrittenRuleDoesNotReturnToInit | src/abnf/parser.rs:130-152 | as written, the rule `a = b;` leaves REQUIRE_ELEMENTS above [INIT, DEFINER] instead of INIT |
| AbnfParser.RunAsWritten | src/lex/token_factory.rs:34-55 | a token sequence run through `StepAsWritten`, the machine as the factories are written: the first rejected token rejects the run |
| AbnfParser.AsWrittenSecondRuleRejected | src/abnf/rules.rs:76-86 | where the rule `a = b;` leaves the as-written lexer, the next rule's name is taken as an element and its `=` is rejected |
| AbnfEngine.IgnoreIsProper | src/abnf/parser.rs:400 | the ignore pattern (one space or one tab) never matches empty text |
| AbnfEngine.SkipsSpacesAndTabs | src/abnf/parser.rs:400-420 | the skip passes over a run of spaces and tabs and stops at the first other character or at the end |
| AbnfEngine.StateRules | src/abnf/parser.rs:415-655 | each state's list holds, in registration order, each class's regex with its row's factory |
| AbnfEngine.Factory | src/abnf/parser.rs:130-397 | an `abnf_*` function as an engine factory: the row's token type with the matched text, an advance of the text's length on the same line, the row's operations under the states' names, and the custom state passed through; `RunFactory` builds the same through the token factory |
| AbnfEngine.AbnfConfig | src/abnf/parser.rs:415-655 | the lexer `new_lexer_state` configures: the space/tab ignore pattern, the `abnf_token_eof` end token and every state's rule list under its name |
| AbnfEngine.RegisteredLookup | src/abnf/parser.rs:415-655 | a state's name is in the table exactly when the state has been registered, and it maps to that state's list |
| AbnfEngine.AbnfRuleTableLookup | src/abnf/parser.rs:415-655 | every one of the nine states is registered with its own list |
| AbnfEngine.RegisterOneMore | src/abnf/parser.rs:415-655 | registering a new state adds its name, which was not in the table yet |
| AbnfEngine.Classify | src/abnf/parser.rs:415-655 | the class picked is registered in the state, has a factory there, and its regex matches; no class registered before it matches; there is none exactly when no registered class matches |
| AbnfEngine.NameBeatsRange | src/abnf/parser.rs:415-655 | NAME is registered before RANGE in every state, so text that the NAME pattern matches is never a RANGE |
| AbnfEngine.EngineFollowsMachine | src/abnf/parser.rs:130-655 | in the configuration `new_lexer_state` builds, when text is left after the ignored run, the engine's `next` succeeds exactly when a registered class matches; it then makes the machine's `Step` (the stack afterwards is `Step`'s, by name) and the token has the row's type and the matched text; a failure leaves the stack alone |
| AbnfEngine.NextFollowsRows | src/abnf/parser.rs:402-413 | the same for any configuration that holds the ABNF list of the current state |
| AbnfEngine.RunFactory | src/abnf/parser.rs:130-397 | a factory body (new, then pop_state/push_state in order, then build) yields the row's token and change |
| AbnfEngine.SetStateParsers | src/abnf/parser.rs:402-413 | appends the given rules to the state's list in order; the other lists are untouched |
| AbnfEngine.RegisterState | src/abnf/parser.rs:402-413 | one `set_state_parsers` call adds one state's list to the table |
| AbnfEngine.NewLexerState | src/abnf/parser.rs:415-655 | the engine starts in INIT with an empty stack, ignores spaces and tabs, answers `abnf_token_eof` with empty text at the end, and has every state's list registered |
| AbnfEngine.RegisterAllStates | src/abnf/parser.rs:422-652 | the nine registrations together build the whole ABNF rule table |
| AbnfBalance.NestedBalanced | src/abnf/parser.rs:254-397 | a bracketed alternation `( … )` or `[ … ]` read as one element leaves the region's elements state above the same stack |
| AbnfBalance.ElementBalanced | src/abnf/parser.rs:143-397 | one well-formed element, read in a region's require or elements state, leaves the region's elements state above the same stack |
| AbnfBalance.RepeatedItemBalanced | src/abnf/parser.rs:550-596 | the element after a repetition prefix returns to the state the prefix was read in, with the stack below it |
| AbnfBalance.ConcatenationBalanced | src/abnf/parser.rs:143-397 | a concatenation of elements ends in the region's elements state above the same stack |
| AbnfBalance.AlternationBalanced | src/abnf/parser.rs:358-381 | an alternation read from a region's require state ends in its elements state above the same stack |
| AbnfBalance.RuleReturnsToInit | src/abnf/parser.rs:383-488 | a whole rule `name = body;` read in INIT returns to INIT with the stack as it was |
| AbnfBalance.RulesReturnToInit | src/abnf/rules.rs:76-102 | any number of rules read from INIT over an empty stack end in INIT over an empty stack |
| AbnfRuleEntry.Alternatives | src/abnf/rule.rs:25-35 | a selection stands for its branches; any other definition stands for itself alone |
| AbnfRuleEntry.SelectAppended | src/abnf/rule.rs:25-35 | the result is a selection made of the earlier alternatives, in order, followed by the new one |
| AbnfRuleEntry.AppendKeepsOriginal | src/abnf/rule.rs:25-35 | the original is never lost: its branches, or the original itself, come first, and the branch count becomes n+1 or 2 |
| AbnfRuleEntry.AppendAllFlat | src/abnf/rule.rs:25-35 | several appends in a row give one flat selection: the first definition's alternatives followed by the appended definitions in order |
| AbnfRuleEntry.AbnfRule.constructor | src/abnf/rule.rs:10-15 | stores the given name and definition |
| AbnfRuleEntry.AbnfRule.AppendSelect | src/abnf/rule.rs:25-35 | the definition becomes `SelectAppended` of the old one; the name is a constant and cannot change |
| AbnfRuleTable.Applied | src/abnf/rules.rs:28-48 | a statement is accepted exactly when its body compiled and either `=` names a new rule or `=/` names an existing one; an accepted statement leaves the name in the table and adds no other key |
| AbnfRuleTable.Parsed | src/abnf/rules.rs:19-50 | across a call the key set only grows |
| AbnfRuleTable.LeadingEndChangesNothing | src/abnf/rules.rs:22-25 | a call whose first token is the end succeeds and leaves the table unchanged |
| AbnfRuleTable.RedefinitionFails | src/abnf/rules.rs:29-33 | `=` on a name that is already defined fails and leaves the table unchanged |
| AbnfRuleTable.ExtendingMissingFails | src/abnf/rules.rs:34-38 | `=/` on a name that is not defined fails and leaves the table unchanged |
| AbnfRuleTable.OtherDefinerFails | src/abnf/rules.rs:39 | any other definer fails and leaves the table unchanged |
| AbnfRuleTable.DefinitionAddsOneRule | src/abnf/rules.rs:43-48 | a successful `=` adds exactly one key, mapped to the body; the other rules are untouched |
| AbnfRuleTable.ExtensionWidensOneRule | src/abnf/rules.rs:43-45 | a successful `=/` keeps the key set and adds the body as the rule's last alternative; the other rules are untouched |
| AbnfRuleTable.EarlierStatementsPersist | src/abnf/rules.rs:19-50 | statements that succeed stay in effect: the call continues from their table, so a later failure keeps them |
| AbnfRuleTable.DefineThenExtend | src/abnf/rules.rs:105-114 | `rule = …; rule =/ …;` leaves one rule whose definition is the selection of both bodies |
| AbnfRuleTable.AbnfRules.constructor | src/abnf/rules.rs:9-13 | starts with no rules |
| AbnfRuleTable.AbnfRules.ApplyStatement | src/abnf/rules.rs:28-48 | checks the definer against the table, then defines or widens exactly as `Applied` does |
| AbnfRuleTable.AbnfRules.Parse | src/abnf/rules.rs:19-50 | the answer and the table are exactly `Parsed` of the old table, and every rule stays filed under its own name |
| GrammarTrees.Labelled | src/yacc/grammar.rs:16-20 | a forced label always lands; an unforced one lands only on an unlabelled node and never overwrites a label; the text and the children are never touched |
| GrammarTrees.UnforcedLabelIsStable | src/yacc/grammar.rs:16-20 | once a node has a non-empty label, unforced labelling leaves it alone |
| GrammarTrees.FrontierAllAppend | src/yacc/grammar.rs:26-28 | appending a child appends its text to what the children spell |
| GrammarTrees.GrammarTreeNode.constructor | src/yacc/grammar.rs:8-14 | a new node has no label, no text and no children |
| GrammarTrees.GrammarTreeNode.SetRule | src/yacc/grammar.rs:16-20 | the node becomes `Labelled` of itself |
| GrammarTrees.GrammarTreeNode.SetValue | src/yacc/grammar.rs:22-24 | only the text changes |
| GrammarTrees.GrammarTreeNode.AppendChild | src/yacc/grammar.rs:26-28 | the child becomes the last child; the label, the text and the earlier children stay as they were |
| GrammarParsers.Pulled | src/yacc/parser.rs:95-101 | each pull answers the next token, or failure once the source has no more |
| GrammarParsers.Interpret | src/yacc/parser.rs:47-93 | tokens are pulled and never given back |
| GrammarParsers.InterpretSeries | src/yacc/parser.rs:55-65 | the series loop: each item's tree is labelled with the item's name and appended, and the first failing item ends the series; the pull position never goes back |
| GrammarParsers.InterpretPullsOnePerTerminal | src/yacc/parser.rs:47-107 | a successful interpretation pulls exactly one token per terminal it evaluates (`TerminalsOf`); a failed one pulls no more than that |
| GrammarParsers.SeriesPullsOnePerTerminal | src/yacc/parser.rs:55-65 | the series loop pulls exactly the tokens of its remaining items' terminals when it succeeds, and no more when it fails |
| GrammarParsers.InterpretEntry | src/yacc/parser.rs:31-45 | an unknown entry rule fails before any token is pulled; otherwise the answer is the definition's, with the root labelled by the rule's name |
| GrammarParsers.InterpretSpellsTokens | src/yacc/parser.rs:47-107 | a successful interpretation pulls only tokens that exist, and the tree spells out exactly the texts of the tokens it pulled, in order |
| GrammarParsers.SeriesSpellsTokens | src/yacc/parser.rs:55-65 | the same for the series loop, after what the node built so far spells |
| GrammarParsers.InterpretLeavesRootUnlabelled | src/yacc/parser.rs:52-92 | a node comes back without a label; only its caller labels it |
| GrammarParsers.SeriesChildPerItem | src/yacc/parser.rs:55-65 | a successful series has one child per item, in order, each labelled with its item's name |
| GrammarParsers.SeriesFailureIgnoresRest | src/yacc/parser.rs:55-65 | items after a failing one are never evaluated: appending more items changes nothing |
| GrammarParsers.MoreFuelSameTree | src/yacc/parser.rs:73-84 | more fuel does not change a successful result |
| GrammarParsers.TokenSource.Pull | src/yacc/parser.rs:100 | one call of the closure, answering `Pulled` |
| GrammarParsers.GrammarParser.constructor | src/yacc/parser.rs:14-18 | starts with an empty rule table |
| GrammarParsers.GrammarParser.AddRules | src/yacc/parser.rs:20-22 | is one call of `AbnfRules.Parse` on the parser's table |
| GrammarParsers.GrammarParser.GetRule | src/yacc/parser.rs:24-29 | finds the rule filed under the key, whose name is the key; fails exactly when there is none |
| GrammarParsers.GrammarParser.ParseAbnfDefinitionTerminal | src/yacc/parser.rs:95-107 | pulls exactly one token and succeeds exactly when the source still had a token and its text equals the literal; it then answers the literal |
| GrammarParsers.GrammarParser.ParseAbnfDefinition | src/yacc/parser.rs:47-93 | the node, the success and the tokens pulled are exactly `Interpret`'s |
| GrammarParsers.GrammarParser.ParseSeries | src/yacc/parser.rs:55-65 | the series loop is `InterpretSeries` from the first item |
| GrammarParsers.GrammarParser.ParseRule | src/yacc/parser.rs:73-84 | a rule reference gives the same result as `Interpret` on `Rule(name)` |
| GrammarParsers.GrammarParser.Parse | src/yacc/parser.rs:31-45 | the node, the success and the tokens pulled are exactly `InterpretEntry`'s |

## Left out

- The regex crate is a parameter. `Matcher` answers the length of a match at the start of the text, and that length never exceeds the text. Every pattern in the source starts with `^`. A pattern that fails to compile is silently skipped in the source (`if let Ok`); the model assumes that every pattern compiles. The ABNF patterns are tied to the matcher only through `IgnoresSpaceAndTab`.
- LexerStates.LexerState.SetIgnore, Lexers.Lexer.SetIgnore: both require `ProperIgnore`, a pattern that never matches empty text. The source accepts any pattern, but `skip_ignore` (src/lex/lexer_state.rs:233-246, src/lex/lexer.rs:43-56) adds the match length to the offset until the pattern fails, so an empty-matching pattern would loop forever. The only pattern the source installs is the ABNF one, and `IgnoresSpaceAndTab` proves that it satisfies `ProperIgnore`.
- Offsets count characters, not UTF-8 bytes. `src.get(offset..)` failing in the middle of a multi-byte character is not modelled.
- `usize` overflow of offsets, lines and columns is not modelled: integers are unbounded. A `Position` comes from `offset - line_offset`, which the `lineOffset <= offset` invariant keeps non-negative.
- LexerStates.LexerState.Restore requires the snapshot's line start to be at or before its offset, as every `dump` produces. A forged snapshot would make the source's subtraction underflow.
- Tokens.Token.SetLocation is a functional update on a value: tokens are moved around by value in the source, and nobody else holds them while they are updated.
- The end factory `fn() -> Token` takes no input, so it is modelled as the one token it builds.
- The custom state's type `BnfState` is not part of this model, so the ABNF engine is generic in it. Its factories pass it through untouched.
- `AbnfDefinition::new`, the body compiler, and `abnf_type` are not part of this model. `AbnfRules.Parse` reads its input as a list of `Statement`s: the end, a lexer failure, or a name, a definer and a compiled body (or a compile failure).
- AbnfRuleTable.Parsed treats a statement list that runs out as the end. The real lexer always ends with the end token.
- `AbnfDefinition::get_name` is not part of this model. It is the parameter `getName`.
- The token closure of `GrammarParser::parse` is a `TokenSource` holding a token list and a call count. Past the list every call fails.
- GrammarParsers.Interpret has a `fuel` argument that bounds the rule references followed, and fails when it runs out. The source can recurse without bound on a cyclic grammar. `MoreFuelSameTree` shows that fuel never changes a successful result.
- GrammarTrees.GrammarTreeNode.AppendChild stores the child's tree by value: the source moves the boxed child into its parent, and nobody holds it afterwards.
- Lexers.Lexer.Next has an `if` where the source has `while true`: every round of that loop either returns or breaks, so it never runs a second time.
- The getters (`get_custom_state`, `get_mut_custom_state`, `get_name`, `get_definition`, `result`, the snapshot accessors, the token getters and `Position::new`) are plain field reads. The `Display` impls (src/lex/position.rs:41-45, src/lex/location.rs:24-28) format text and are not modelled.
- `RepeatTimes` counts are `i64` in the source and `int` here. No arithmetic is done on them.
- src/lex/mod.rs does not declare `lexer_state`, `token_factory` or `state_change`, and src/abnf/definition.rs names the type `BnfDefinition` with a `Choose` variant. The model treats these files as one crate and uses the `AbnfDefinition` that the other files use.
- The unit test at src/abnf/parser.rs:683 expects the text `name2` for the string terminal `"name3"`. The factories emit the matched text, so the model gives `"name3"`.

## Findings

| source | as written | input that shows it | evidently intended | confidence | as-written member | corrected member |
|---|---|---|---|---|---|---|
| src/lex/token_factory.rs:34-44, 46-55 | `push_state` and `pop_state` overwrite a single `Option<NextStateChange>`. At line 52 `build` passes that `Option` where `StateChange::new` takes a `Vec<NextStateChange>` (src/lex/state_change.rs:15-19), so the file does not type-check as written. The as-written model reads the `Option` as a list of at most one operation (`PendingAsWritten`). Under that reading only the last requested operation survives, and the chain `.pop_state(1).push_state(s)` that every "replace" factory in src/abnf/parser.rs uses loses its pop | the rule `a = b;` from INIT with an empty stack ends in REQUIRE_ELEMENTS above [INIT, DEFINER], not in INIT; from there the next rule's `name =` is rejected (`AsWrittenSecondRuleRejected`), so the two-rule line of the test at src/abnf/rules.rs:76-86 fails | every requested operation is kept in call order and applied in that order, so a rule returns to INIT | not executed | AbnfParser.AsWrittenRuleDoesNotReturnToInit | AbnfBalance.RuleReturnsToInit |
