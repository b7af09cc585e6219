# rumpsteak tooling in Dafny

This project models the sequential tooling of the rumpsteak session-types
toolkit and proves properties of that model. It covers:

- **Communicating finite-state machines.** `Fsm` with `add_state` and
  `add_transition` (module `Machine`). A state either ends or offers choices
  that all talk to one peer role in one direction. The module also holds
  action duality, `dual` and `to_binary`. `Normalize` renames roles and
  labels to small indices. `LocalTypes` reads a recursive local type off a
  machine.
- **Printers.** `Printers` holds the Graphviz DOT and Petrify renderings.
  `Expressions` prints refinement expressions, parameters and messages with
  precedence-driven bracketing. `Template` is the code generator's
  `TypeFormatter`. `Text` is the decimal and join helpers they share.
- **DOT readers.** `DotParse` and `DotRoundTrip` model the older `digraph`
  parser of `src/fsm/dot.rs` and its copy in `src/fsm/dot/parse.rs`, with
  the proof that a printed machine parses back. `DotTokens` holds the token
  kinds and the `expected A, B or C` messages. `SpannedLexer` is the newer
  look-ahead lexer with its expected-names list and error list.
  `TransitionGrammar`, `ShuntingYard`, `InfixReading`, `TransitionParse` and
  `TransitionShapes` cover the transition-label parser with its
  operator-stack expression reader. `DigraphParse` and `DigraphShapes`
  cover the newer `digraph` reader, which records errors and keeps going.
- **Asynchronous subtyping.** `Prefixes` is the prefix buffer with removal
  flags, snapshot and revert. `Reduction` is `reduce`. `Subtyping` is the
  bounded visitor with its history matrix and quantifiers. `Matrices` holds
  the row-major matrices, and `Pairs` the left/right pair helper.
- **Type-to-graph serialisers.** `SessionTypes` holds session types as an
  environment of type ids. `SerializeWalk` is the depth-first walk the two
  serialisers share. `SessionSerialize` models `src/session/serialize.rs`,
  and `GraphSerialize` models the older `src/serialize.rs`.
- **Code generator.**
  - `GenGraph` is the protocol graph and `Peekable` is `DoublePeekable`.
  - `Definitions` specifies `generate_definitions` as a function, and
    `DefinitionVisitor` is the visitor that the source writes as an object.
    `CachedDefinitions` is the corrected walk.
  - `GenParser` covers `Edge::parse`/`Digraph::parse` and `GenTree` covers
    `check_graph_edges`/`try_from`/`Tree::parse`.
  - `Protocol` covers `Builder::generate` and the role and label generation.
- **Refinements and analysis.** `Refinements` holds the map side effects
  and predicates. `VariableLocation` holds the dynamic verifier's Datalog
  rules as a least fixpoint, with their fact extraction. `Statistics` holds
  the order statistics of the benchmark script.

Several files exist in two revisions: `src/fsm/mod.rs` and
`fsm/src/lib.rs`, the two `prefix.rs` and the two `matrix.rs`, and the two
subtyping visitors. Each pair behaves the same on what is modelled, so one
model stands for both. The table cites whichever revision a member's
contract is closest to.

A petgraph graph is a sequence of nodes and a sequence of edges in
insertion order. The edges leaving one node are another matter: petgraph
puts each new edge at the head of its node's list, so `transitions_from`
and everything built on it (the local type's branches, the subtyping
check's loops) meets a state's transitions newest first, and
`Machine.TransitionsFrom` lists them in that order. Where the source
iterates a hash set or hash map, the model uses insertion order. The members whose results depend on that order
are named under "Left out". A panic or assertion the source demands of its callers becomes a
`requires`. An error the source returns becomes a `Result`, `Option` or
outcome datatype. Where the code generator panics on reachable input, the
model has an explicit `Crashed` outcome.

## Model

| member | source | states |
|---|---|---|
| DigraphParse.SubUsize | fsm/src/dot/parse/fsm.rs:145 | `usize` subtraction is defined exactly when it does not underflow, and then undoes the addition |
| DigraphParse.EmptyLiteralPanics | fsm/src/dot/parse/fsm.rs:143-150 | as written, the empty quoted identifier `""` underflows `slice.len() - 1` before the empty check is reached |
| DigraphParse.EmptyLiteral | fsm/src/dot/parse/fsm.rs:143-150 | with the length taken after the empty check, `""` is the empty borrowed identifier; as written fails on exactly the two-character token, and agrees on every longer one |
| DigraphParse.PlainPrefix | fsm/src/dot/parse/fsm.rs:155-161 | text without quotes, in front of anything but a quote, reads as itself |
| DigraphParse.PlainHead | fsm/src/dot/parse/fsm.rs:155-161 | a first character that starts no `\"` reads as itself |
| DigraphParse.PlainText | fsm/src/dot/parse/fsm.rs:163-165 | text without quotes reads as itself |
| DigraphParse.EraseMask | fsm/src/dot/parse/fsm.rs:155-168 | removing the marked characters from the slice gives its unescaped text |
| DigraphParse.LiteralMeaning | fsm/src/dot/parse/fsm.rs:138-169 | the identifier's text is the slice with each `\"` read as `"`; it is borrowed exactly when the slice holds no quote; an owned one has one mask bit per position of the slice but the last, set exactly at the `\` of each `\"` |
| DigraphParse.EscapeRoundTrip | fsm/src/dot/parse/fsm.rs:40 | quoting every `"` as `\"` gives text the identifier pattern accepts, and unescaping gives the original text back |
| DigraphParse.QuotedRoundTrip | fsm/src/dot/parse/fsm.rs:138-169 | any text, quoted with its quotes escaped, reads back as itself |
| DigraphParse.ScanQuote | fsm/src/dot/parse/fsm.rs:155-161 | the text since the last escape up to a `\"` unescapes to itself followed by one `"` |
| DigraphParse.QuoteStep | fsm/src/dot/parse/fsm.rs:155-161 | the scan's invariant holds again after a `\"` is found and its text pushed |
| DigraphParse.PlainStep | fsm/src/dot/parse/fsm.rs:155-161 | the scan's invariant holds again after any other character |
| DigraphParse.QuoteBound | fsm/src/dot/parse/fsm.rs:156-157 | a `"` found after the first character lies at least one character past the end of the last escape, so the slice pushed is well formed |
| DigraphParse.ScanAt | fsm/src/dot/parse/fsm.rs:155-161 | one character of the scan keeps the scan's invariant and sets exactly the bit of the `\` before a `"`, leaving every other bit as it was |
| DigraphParse.ScanEnd | fsm/src/dot/parse/fsm.rs:167 | at the end of the scan the text pushed, followed by the rest, is the whole unescaped slice |
| DigraphParse.Scan | fsm/src/dot/parse/fsm.rs:152-161 | the removed bits are exactly the mask of the `\` of each `\"`, the last escape ended just after a `"`, no quote follows it, and the text pushed followed by the rest unescaped is the whole slice unescaped |
| DigraphParse.Literal | fsm/src/dot/parse/fsm.rs:138-169 | the identifier is the corrected `literal`'s, `LiteralOf` |
| DigraphParse.LiteralOf | fsm/src/dot/parse/fsm.rs:138-169 | the corrected `literal` on a token of at least the two quotes; `LiteralMeaning` states that its text is the slice with each `\"` read as `"` and that it borrows exactly when the slice holds no quote, `EmptyLiteral` that `""` is the empty borrowed identifier, and `QuotedRoundTrip` that quoted text reads back as itself |
| DigraphParse.Insert | fsm/src/dot/parse/fsm.rs:237 | `insert` answers true exactly when no equal transition (spans ignored) was already there; then the set grows by that one; the set never holds two equal ones; membership after is membership before or equality with the new one |
| DigraphParse.Pushed | src/fsm/dot/parse/mod.rs:155-159 | the error is appended at its span and nothing else of the reader changes |
| DigraphParse.DeclareOf | fsm/src/dot/parse/fsm.rs:198-206 | a declaration touches only the state map and the errors, and consumes no tokens |
| DigraphParse.RecordOf | fsm/src/dot/parse/fsm.rs:235-240 | recording touches only the transition set and the errors, and consumes no tokens |
| DigraphParse.TailOf | fsm/src/dot/parse/fsm.rs:242-244 | the tail never changes what was collected; an entry that goes on has consumed tokens |
| DigraphParse.LabelOf | fsm/src/dot/parse/fsm.rs:217-244 | the label never changes the state map; an entry that goes on has consumed tokens |
| DigraphParse.EdgeOf | fsm/src/dot/parse/fsm.rs:207-245 | a transition entry never changes the state map; one that goes on has consumed tokens |
| DigraphParse.EntryOf | fsm/src/dot/parse/fsm.rs:185-248 | an entry that does not panic leaves lexable tokens and nothing tried; one that goes on has consumed tokens |
| DigraphParse.StatementOf | fsm/src/dot/parse/fsm.rs:198-247 | after the state name, a statement that does not panic leaves lexable tokens and nothing tried; a declaration or a completed transition has consumed tokens |
| DigraphParse.EntriesOf | fsm/src/dot/parse/fsm.rs:261 | the loop stops only at an entry that returns `None` or panics |
| DigraphParse.DeclareSound | fsm/src/dot/parse/fsm.rs:198-206 | a new state gets the next index and no state is renumbered; a state declared before is reported at its name with nothing changed |
| DigraphParse.RecordSound | fsm/src/dot/parse/fsm.rs:235-240 | a transition equal to one recorded is reported over both names and not added; a new one is appended with no error; the set stays free of repeats |
| DigraphParse.EntrySound | fsm/src/dot/parse/fsm.rs:185-248 | one entry keeps the states numbered densely in declaration order and the set free of repeats |
| DigraphParse.EdgeSound | fsm/src/dot/parse/fsm.rs:207-245 | a transition entry keeps the collection sound |
| DigraphParse.AssignSound | fsm/src/dot/parse/fsm.rs:215-244 | the `= "..."` part keeps the collection sound |
| DigraphParse.LabelSound | fsm/src/dot/parse/fsm.rs:217-244 | reading the label keeps the collection sound |
| DigraphParse.EntriesSound | fsm/src/dot/parse/fsm.rs:258-261 | the whole body keeps the collection sound |
| DigraphParse.Ends | fsm/src/dot/parse/fsm.rs:254 | an FSM of the role with the given number of states and no transitions |
| DigraphParse.ResolveOneOf | fsm/src/dot/parse/fsm.rs:263-285 | one turn keeps the FSM valid, its role and its states |
| DigraphParse.ResolveOf | fsm/src/dot/parse/fsm.rs:263-285 | the whole `for` keeps the FSM valid, its role and its states |
| DigraphParse.ResolveAccounts | fsm/src/dot/parse/fsm.rs:263-285 | the edges and errors only grow, and by exactly one between them for each recorded transition |
| DigraphParse.SkipsUndefined | fsm/src/dot/parse/fsm.rs:266-280 | a transition from or to an undeclared state is reported at that name (the source's when both are missing) and skipped |
| DigraphParse.AddsDefined | fsm/src/dot/parse/fsm.rs:282-284 | a transition between declared states is added, or reported over both names with the reason `add_transition` gives, with the FSM unchanged |
| DigraphParse.BodyOf | fsm/src/dot/parse/fsm.rs:256-287 | a body read gives a valid FSM of the role, with lexable tokens left and nothing tried |
| DigraphParse.DigraphOf | fsm/src/dot/parse/fsm.rs:250-288 | a `digraph` read gives a valid FSM, with lexable tokens left and nothing tried |
| DigraphParse.EntriesGraphOf | fsm/src/dot/parse/fsm.rs:258-287 | the entries after the `{` followed by the transitions give, when nothing panics, a valid FSM of the role with lexable tokens left and nothing tried |
| DigraphParse.GraphFromEntries | fsm/src/dot/parse/fsm.rs:258-287 | entries read without a panic leave a sound collection whose states index a new FSM of that many states, and the graph is what adding the collected transitions to it gives |
| DigraphParse.BodyHeader | fsm/src/dot/parse/fsm.rs:256 | the body returns `None` exactly when its `{` is missing, and has then reported one token error |
| DigraphParse.HeaderDecides | fsm/src/dot/parse/fsm.rs:250-256 | `parse` returns `None` exactly when `digraph name {` is not there, and then has added exactly one token error; otherwise an FSM is returned |
| DigraphParse.CleanIsGraph | fsm/src/dot/parse/fsm.rs:250-256 | read from an empty error list, a `digraph` that reports no error is an FSM, never `None` |
| DigraphParse.StuckOnBadHeader | fsm/src/dot/parse/fsm.rs:251 | at a first token other than `digraph`, nothing is consumed and one error expecting `digraph` is reported there |
| DigraphParse.Declare | fsm/src/dot/parse/fsm.rs:198-206 | the declaration as `DeclareOf` says, with `add_state` giving the FSM one state per declared name |
| DigraphParse.Record | fsm/src/dot/parse/fsm.rs:235-240 | recording as `RecordOf` says |
| DigraphParse.ParseTail | fsm/src/dot/parse/fsm.rs:242-244 | the tail as `TailOf` says |
| DigraphParse.ParseLabel | fsm/src/dot/parse/fsm.rs:217-244 | the label, on a transition lexer of its own reporting into the same errors, as `LabelOf` says |
| DigraphParse.ParseAssign | fsm/src/dot/parse/fsm.rs:215-244 | as `AssignOf` says |
| DigraphParse.ParseAttributes | fsm/src/dot/parse/fsm.rs:213-244 | as `AttributesOf` says |
| DigraphParse.ParseEdge | fsm/src/dot/parse/fsm.rs:207-245 | as `EdgeOf` says |
| DigraphParse.ParseEntry | fsm/src/dot/parse/fsm.rs:185-248 | as `EntryOf` says, with the FSM holding one state per declared name |
| DigraphParse.ParseStatement | fsm/src/dot/parse/fsm.rs:198-247 | as `StatementOf` says, with the FSM holding one state per declared name |
| DigraphParse.ParseEntries | fsm/src/dot/parse/fsm.rs:261 | as `EntriesOf` says from an empty collection |
| DigraphParse.ResolveOne | fsm/src/dot/parse/fsm.rs:263-285 | the FSM and the errors after one turn are those of `ResolveOneOf` |
| DigraphParse.Resolve | fsm/src/dot/parse/fsm.rs:263-285 | the FSM and the errors after the `for` are those of `ResolveOf` |
| DigraphParse.ParseBody | fsm/src/dot/parse/fsm.rs:254-287 | as `BodyOf` says |
| DigraphParse.ParseGraph | fsm/src/dot/parse/fsm.rs:258-287 | as `EntriesGraphOf` says, the FSM read being the one returned |
| DigraphParse.Parse | fsm/src/dot/parse/fsm.rs:250-288 | as `DigraphOf` says |
| DigraphParse.ParseIter.constructor | src/fsm/dot/parse/mod.rs:275-291 | a lexer over the text with a new, empty error list |
| DigraphParse.ParseIter.Next | src/fsm/dot/parse/mod.rs:258-272 | nothing at the end of the text; otherwise one `digraph` read, an error result exactly when errors were reported (all of them), and otherwise the FSM read |
| DigraphShapes.Closing | fsm/src/dot/parse/fsm.rs:191-193 | `}` ends the body and is taken |
| DigraphShapes.NewState | fsm/src/dot/parse/fsm.rs:198-205 | `a;` for a new state gives it the next index, and the body goes on |
| DigraphShapes.RedeclaredState | fsm/src/dot/parse/fsm.rs:199-202 | `a;` for a state declared before is reported at `a`, changes nothing, and the body goes on |
| DigraphShapes.Tail | fsm/src/dot/parse/fsm.rs:242-244 | `];` after the label ends the entry, and the body goes on |
| DigraphShapes.Assign | fsm/src/dot/parse/fsm.rs:215-244 | `= "label" ];` records what the label reads and ends the entry |
| DigraphShapes.LabelRead | fsm/src/dot/parse/fsm.rs:226-244 | the label text read as a transition is recorded between the two states, and the closing `];` ends the entry |
| DigraphShapes.Attributes | fsm/src/dot/parse/fsm.rs:213-244 | `[label = "label" ];` records what the label reads and ends the entry |
| DigraphShapes.Edge | fsm/src/dot/parse/fsm.rs:208-211 | `-> b` is taken before the attributes |
| DigraphShapes.ArrowTarget | fsm/src/dot/parse/fsm.rs:208-211 | the arrow is taken, forgetting the `;` tried before it, and then the target name is taken |
| DigraphShapes.Head | fsm/src/dot/parse/fsm.rs:195-208 | a state name followed by `->` starts a transition |
| DigraphShapes.EdgeStatement | fsm/src/dot/parse/fsm.rs:198-208 | after the state name, an arrow is not a `;`, so the statement is read as an edge from that state |
| DigraphShapes.TransitionStep | fsm/src/dot/parse/fsm.rs:195-213 | `a -> b` followed by the attributes reads as those attributes with `a` and `b` |
| DigraphShapes.TransitionEntry | fsm/src/dot/parse/fsm.rs:207-245 | `a -> b [label="..."];`: a transition equal to one read before is reported over `a` to `b` and not recorded again; a new one is recorded; either way the body goes on with the states unchanged |
| DotTokens.Name | src/fsm/dot.rs:109-128 | every kind but `Error` has a non-empty name |
| DotTokens.NameInjective | src/fsm/dot.rs:109-128 | distinct kinds have distinct names |
| DotTokens.Names | src/fsm/dot.rs:178-187 | one name per kind, in order |
| DotTokens.ExpectedShapes | src/fsm/dot.rs:176-195 | `expected A`, `expected A or B`, `expected A, B or C` |
| DotTokens.MiddleAppend | src/fsm/dot.rs:182-184 | each further inner name adds `, X` at the end of the list |
| DotTokens.WriteExpected | src/fsm/dot.rs:176-187 | the loop writes exactly the list `ExpectedText` specifies |
| DotParse.UnexpectedTextShape | src/fsm/dot.rs:176-195 | the message names the expected kinds, then `but found` with the text in quotes or `end of input` |
| DotParse.PositionsExact | src/fsm/dot.rs:277-278 | the positions found are exactly those of `?` and `!` in the range, in increasing order |
| DotParse.PositionsSingle | src/fsm/dot.rs:278-283 | a single `?` or `!` in the range is the only position found |
| DotParse.ParseTransition | src/fsm/dot.rs:270-300 | a text shorter than three characters is refused; a transition read has a non-empty role and label which, with the action character, make up the whole text |
| DotParse.ParseTransitionExact | src/fsm/dot.rs:270-300 | `parse_transition` yields a transition exactly from its printed text, when role and label are non-empty and have no action character where the search looks |
| DotParse.ParseTransitionSound | src/fsm/dot.rs:270-300 | whatever it reads prints back as the input |
| DotParse.ParseTransitionComplete | src/fsm/dot.rs:270-300 | the text of a readable transition is read back as that transition |
| DotParse.Unescape | src/fsm/dot.rs:231-240 | the value is never longer than the quoted text; `UnescapeEscape` gives its inverse |
| DotParse.UnescapeEscape | src/fsm/dot.rs:59 | unescaping undoes escaping for every text |
| DotParse.NoQuoteUnescape | src/fsm/dot.rs:238-240 | text with no quote unescapes to itself |
| DotParse.Literal | src/fsm/dot.rs:215-244 | the outer quotes are stripped and every `\"` becomes `"` |
| DotParse.LiteralStep | src/fsm/dot.rs:231-236 | one quote of the loop: the plain text up to its backslash, then the quote |
| DotParse.PeekableLexer.constructor | src/fsm/dot.rs:136-139 | nothing peeked, every token pending |
| DotParse.PeekableLexer.Lex | src/fsm/dot.rs:141-158 | the lexer's next token, whose text becomes the slice |
| DotParse.PeekableLexer.Peek | src/fsm/dot.rs:145-149 | the next pending token, which stays pending |
| DotParse.PeekableLexer.Next | src/fsm/dot.rs:155-160 | the next pending token, the peeked one first, now taken |
| DotParse.HeaderOf | src/fsm/dot.rs:304-311 | the header never takes more tokens than there are |
| DotParse.EntryOf | src/fsm/dot.rs:317-350 | every entry takes at least one token unless the input has run out |
| DotParse.CollectDense | src/fsm/dot.rs:313-336 | the declared states are numbered `0 .. n` one to one |
| DotParse.Expect | src/fsm/dot.rs:256-268 | takes the next token; an error names the expected kinds and the text found, or the end of input |
| DotParse.Optional | src/fsm/dot.rs:246-254 | takes the next token exactly when it is of an expected kind |
| DotParse.ReadEntry | src/fsm/dot.rs:317-358 | the entry read and the tokens left are those `EntryOf` specifies |
| DotParse.ReadTail | src/fsm/dot.rs:364-366 | an optional `,`, then `]` and `;`, as `TailOf` specifies |
| DotParse.Parse | src/fsm/dot.rs:302-385 | the parse and the tokens it leaves are those `GraphOf` specifies: header, entries, the trailing-token check, then the transitions |
| DotParse.GraphOf | src/fsm/dot.rs:302-385 | a graph is read only after a well-formed header, and has the header's name as its role; for `parse` nothing follows it |
| DotParse.Resolve | src/fsm/dot.rs:374-382 | adding the collected transitions keeps the machine's role and number of states |
| DotParse.Entries | src/fsm/dot.rs:313-367 | one `End` state per declared name, the transitions in order, stopping at the first duplicate or malformed entry |
| DotParse.AddTransitions | src/fsm/dot.rs:374-382 | the machine gains the transitions until the first undeclared state or rejected transition |
| DotParse.ParseIter.constructor | src/fsm/dot/parse.rs:355-357 | every token pending |
| DotParse.ParseIter.Next | src/fsm/dot/parse.rs:343-353 | nothing exactly when the input has run out, otherwise the next graph, which takes at least one token |
| DotParse.GraphOfConsumes | src/fsm/dot/parse.rs:343-353 | every parse of a non-empty input takes a token, so the iterator ends |
| DotRoundTrip.Placed | src/fsm/dot.rs:374-379 | each transition's endpoints replaced by their state numbers |
| DotRoundTrip.ResolveDeclared | src/fsm/dot.rs:374-382 | adding the transitions succeeds only when every endpoint was declared |
| DotRoundTrip.ResolveAdds | src/fsm/dot.rs:374-384 | on success the machine gains exactly the collected transitions, in order, and keeps its role and states |
| DotRoundTrip.ResolveUndefined | src/fsm/dot.rs:377-378 | an undefined-state error names an endpoint of a transition that was never declared |
| DotRoundTrip.StatesMapFacts | src/fsm/dot.rs:24-26 | the printed state numbers `0 .. n` name `n` distinct states |
| DotRoundTrip.CollectStates | src/fsm/dot.rs:24-26 | the printed state lines declare the states in order |
| DotRoundTrip.CollectEdges | src/fsm/dot.rs:32-35 | the printed transition lines collect every edge in order, then the brace ends the loop |
| DotRoundTrip.ResolveBuild | src/fsm/dot.rs:374-384 | adding the printed edges to fresh states rebuilds the machine |
| DotRoundTrip.BodyRead | src/fsm/dot.rs:16-38 | the printed body collects every state and every edge |
| DotRoundTrip.DotRoundTrip | src/fsm/dot.rs:15-38 | printing a printable machine and parsing the tokens gives the same machine, with nothing left over |
| DotRoundTrip.DuplicateDeclaration | src/fsm/dot.rs:327-330 | a state declared twice in a row, as in `digraph G { a; a; }`, makes the graph fail with `DuplicateState` naming it, whatever follows |
| DotRoundTrip.TrailingTokenExample | src/fsm/dot.rs:369-372 | a token after the closing brace is an error for `parse` and is left for the next graph by `parse_one` |
| DotRoundTrip.HeaderErrors | src/fsm/dot.rs:304-311 | a missing `digraph`, role or `{` is reported with the one kind expected there |
| Expressions.Precedence | fsm/src/lib.rs:72-144 | unary operators have precedence 2 and every binary operator one between 3 and 12 |
| Expressions.AssociativityOf | fsm/src/lib.rs:67-124 | an operator associates to the right exactly when it is unary |
| Expressions.Print | fsm/src/lib.rs:177-222 | the inner text of the expression, put in brackets exactly when its operator is looser than the context, or equally tight with the same associativity as the context |
| Expressions.Show | fsm/src/lib.rs:225-229 | the top-level context (`usize::MAX`) never brackets, so the text is the inner text |
| Expressions.BinaryOperandBrackets | fsm/src/lib.rs:214-220 | a left operand as tight as its operator prints bare and a right one gets brackets; tighter right operands print bare and looser left ones get brackets |
| Expressions.LeftNestedExample | fsm/src/lib.rs:214-220 | `(a + b) + c` prints as `a + b + c` |
| Expressions.RightNestedExample | fsm/src/lib.rs:214-220 | `a + (b + c)` keeps its brackets |
| Expressions.LooserOperandExample | fsm/src/lib.rs:214-220 | a looser operand is bracketed on either side |
| Expressions.IsEmpty | fsm/src/lib.rs:271-278 | a parameter list is empty exactly when it has no entries, whichever kind it is |
| Expressions.NamedTexts | fsm/src/lib.rs:248-257 | each named parameter prints as `name: sort` with `{refinement}` when it has one |
| Expressions.EmptyParametersText | fsm/src/lib.rs:280-299 | an empty list prints as nothing |
| Expressions.ParametersText | fsm/src/lib.rs:280-298 | `Display for Parameters`: the names or the named parameters, joined by `, `; `EmptyParametersText` states that an empty list prints as nothing and `NamedTexts` how each named parameter prints |
| Expressions.FromLabel | fsm/src/lib.rs:317-319 | a message from a label has that label, no parameters and no assignments |
| Expressions.AssignmentTexts | fsm/src/lib.rs:329-337 | each assignment prints as `name: expression` |
| Expressions.FromLabelText | fsm/src/lib.rs:322-341 | a message from a label prints as the label alone |
| Expressions.MessageTextExample | fsm/src/lib.rs:322-341 | parameters print in brackets and assignments in square brackets, each comma-separated |
| Expressions.MessageText | fsm/src/lib.rs:322-341 | `Display for Message`: the label, then the parameters in round brackets unless there are none, then the assignments in square brackets unless there are none; `FromLabelText` states that a message made from a label prints as the label and `MessageTextExample` the bracketing and comma separation |
| PrintedReading.SpellPrinted | fsm/src/lib.rs:179-222 | the printed tokens of an expression spell exactly the text `fmt_inner` writes in that context |
| PrintedReading.SpellInner | fsm/src/lib.rs:198-222 | the tokens of an expression's inner text spell exactly that text |
| PrintedReading.SpellConcat | fsm/src/lib.rs:198-222 | the spelling of two runs of tokens is the one spelling after the other |
| PrintedReading.ReadPrinted | fsm/src/dot/parse/transition.rs:384-441 | reading the printed tokens of an expression, over stacks that stop every operator printing bare in the context, leaves outputs and operators that drain to exactly that expression, none of the operators a bracket or looser than the context |
| PrintedReading.ReadInner | fsm/src/dot/parse/transition.rs:384-441 | the same for the inner tokens of an expression whose operator prints bare in its context |
| PrintedReading.ReadShown | fsm/src/lib.rs:225-229 | `Display` round trip: the printed tokens spell the displayed text, and followed by the terminal `parse_expression` reads them back as the expression, with no error and the tokens after the terminal left |
| PrintedReading.BracketsNeeded | fsm/src/lib.rs:186-194 | for two binary operators over three atoms, nested either way, the printed tokens are the bare `x p y q z` exactly when that bare run reads back as the expression printed: a bracket is written only where leaving it out changes the reading |
| PrintedReading.RightNestedPrints | fsm/src/lib.rs:186-220 | `x p (y q z)` keeps its brackets exactly when `q` binds no tighter than `p` |
| PrintedReading.LeftNestedPrints | fsm/src/lib.rs:186-220 | `(x p y) q z` keeps its brackets exactly when `p` binds looser than `q` |
| PrintedReading.PushDrains | fsm/src/dot/parse/transition.rs:303-325 | an operator that every pending one applies before, and the one below does not, applies them all and is stacked |
| PrintedReading.CloseDrains | fsm/src/dot/parse/transition.rs:427-440 | a `)` applies the pending operators down to their bracket and drops it |
| PrintedReading.DrainSplit | fsm/src/dot/parse/transition.rs:443-448 | draining two runs of operators drains the upper run first |
| PrintedReading.GuardBinary | fsm/src/lib.rs:186-220 | a binary operator printed bare: the operators below stop what its operands leave pending, and do not apply before it |
| PrintedReading.GuardUnary | fsm/src/lib.rs:186-212 | the same for a negation printed bare |
| Machine.Dual | fsm/src/lib.rs:31-38 | the dual of a receive is a send and the dual of a send is a receive |
| Machine.DualTwice | fsm/src/lib.rs:31-38 | taking the dual twice gives the action back |
| Machine.ActionText | fsm/src/lib.rs:40-47 | a receive prints as `?` and a send as `!`, and the two texts differ |
| Machine.Transitions | fsm/src/lib.rs:460-474 | one entry per edge, in edge order, each with the edge's endpoints and its source state's role and action |
| Machine.TransitionsFromExact | src/fsm/mod.rs:132-145 | the transitions from a state are exactly the edges leaving it, each with that state's role and action |
| Machine.TransitionsFrom | src/fsm/mod.rs:132-145 | a state has no more transitions than the machine has edges |
| Machine.AddTransitionNewest | fsm/src/lib.rs:476-484 | after a successful add the new transition comes first among its source's, ahead of the older ones in their order, and every other state lists what it did before |
| Machine.AddTransitionOutcome | src/fsm/mod.rs:151-185 | self-communication fails first, then a second peer role, then a second direction; a failure leaves the machine unchanged, a success adds exactly one edge and keeps the states |
| Machine.AddTransitionValid | fsm/src/lib.rs:496-530 | adding a transition keeps every edge between existing states, leaving a choice state that never talks to the machine's own role |
| Machine.AddTransitionListed | fsm/src/lib.rs:496-530 | earlier transitions read the same afterwards and the new edge reads as the transition added |
| Machine.AddTransitionTo | fsm/src/lib.rs:496-530 | the outcome and new value of `add_transition` between two existing states; `AddTransitionOutcome` states the three error rules and what a success adds, `AddTransitionValid` that the FSM invariant is kept, `AddTransitionListed` and `AddTransitionNewest` how the transitions read afterwards |
| Machine.ErrorMessage | src/fsm.rs:124-158 | the three messages of the older `add_transition` are non-empty |
| Machine.ErrorMessagesDistinct | src/fsm.rs:124-158 | the three error messages are pairwise different, so a message names its error |
| Machine.ToBinary | fsm/src/lib.rs:532-558 | every choice talks to `Nil` with its action kept; the states' shape and the edges are unchanged; every choice must share one peer |
| Machine.DualFsm | fsm/src/lib.rs:560-581 | `r` becomes the role and the edges are kept; an ending state stays ending and a state with choices stays one, now talking to the old role with the dual action, which differs from the old one; every choice must talk to `r` |
| Machine.DualInvolution | fsm/src/lib.rs:560-581 | the dual of a valid machine is valid, and the dual of the dual is the machine again |
| Machine.Fsm.constructor | fsm/src/lib.rs:443-446 | a machine of the given role with no states and no edges |
| Machine.Fsm.Size | src/fsm/mod.rs:109-111 | the numbers of states and edges |
| Machine.Fsm.AddState | src/fsm/mod.rs:147-149 | appends one `End` state and returns its index, edges unchanged |
| Machine.Fsm.AddTransition | fsm/src/lib.rs:496-530 | the outcome and new machine `AddTransitionTo` gives, keeping the invariant |
| Machine.Fsm.AddTransitionMessage | src/fsm.rs:124-158 | the same outcome with the older error messages |
| GenGraph.NewNode | generate/src/lib.rs:39-46 | a new node has the given name and neither a peer role nor a direction |
| GenGraph.EdgesFrom | generate/src/lib.rs:140-150 | the edges leaving a node are edges of the graph with that node as source, newest first |
| GenGraph.EdgesFromExact | generate/src/lib.rs:140-150 | every edge of the graph whose source is the node is among the edges leaving it |
| GenGraph.EdgesFromAdd | generate/src/lib.rs:140-150 | an edge added last comes first among its source's edges and changes no other node's edges |
| Peekable.Slot | generate/src/lib.rs:109-113 | a peeked slot holds at most one item, exactly when it is filled, and holds that item |
| Peekable.DoublePeekable.constructor | generate/src/lib.rs:116-122 | the adapter starts with both slots filled from the front of the iterator and yields exactly its items |
| Peekable.DoublePeekable.IsEmpty | generate/src/lib.rs:124-126 | an adapter whose slots are filled in order is empty exactly when it has no items left |
| Peekable.DoublePeekable.Singleton | generate/src/lib.rs:128-134 | the single item is taken exactly when one item is left, and nothing else changes when it is not |
| Peekable.DoublePeekable.Next | generate/src/lib.rs:140-150 | yields the first remaining item and leaves the rest, or nothing when none is left |
| Template.TypeTextBalanced | generate/src/template.rs:51-90 | the rendered session type has balanced angle brackets whenever the role, node and label names contain none |
| Template.TypeTextHead | generate/src/template.rs:51-90 | the rendered type is `End`, the name of the definition it refers to, or starts with `Send`/`Receive` or `Select`/`Branch` exactly as its direction says |
| Template.TypeText | generate/src/template.rs:51-90 | the session type rendered for a definition; `TypeTextBalanced` states that its angle brackets balance when the names hold none, and `TypeTextHead` which keyword or name it starts with for each kind of type |
| Template.DepthAppend | generate/src/template.rs:51-90 | the bracket depth of two pieces written one after the other is the sum of their depths |
| Template.DepthCounts | generate/src/template.rs:51-90 | the bracket depth of a text is its count of `<` minus its count of `>` |
| Definitions.Below | generate/src/lib.rs:171-237 | the node indices of a graph are exactly the numbers below its node count |
| Definitions.Walk | generate/src/lib.rs:171-237 | visiting a node only adds to the visited and looped sets and appends definitions |
| Definitions.WalkArms | generate/src/lib.rs:224-230 | the choices of a node have one arm per outgoing edge, newest first, as the graph lists them, each with that edge's label |
| Definitions.Start | generate/src/lib.rs:240-252 | the visit starts with nothing visited, the root marked looped and no definitions |
| Definitions.WalkGood | generate/src/lib.rs:171-237 | every definition a visit appends is for a visited node, within the role and label tables, and no node gets two definitions of one kind |
| Definitions.WalkArmsGood | generate/src/lib.rs:224-230 | walking the arms of a choice keeps the definitions well formed |
| Definitions.DefinitionsOf | generate/src/lib.rs:240-252 | a root without edges gives no definitions; otherwise the last definition is a named type for the root |
| Definitions.DefinitionsOfGood | generate/src/lib.rs:153-253 | the definitions of a graph stay within its nodes and tables and define no node twice as a type or twice as a choice |
| Definitions.RootChoice | generate/src/lib.rs:246-250 | when the root's visit gives a choice, the root has at least two edges and its choice definition comes last |
| Definitions.RootDefined | generate/src/lib.rs:240-252 | the root gets a type definition exactly when it has outgoing edges |
| Definitions.Converging | generate/src/lib.rs:180-205 | a three-node graph in which two paths meet at a node that is not on a loop |
| Definitions.ConvergingIncomplete | generate/src/lib.rs:180-205 | on that graph the definitions refer to a node for which no definition is generated |
| Definitions.ConvergingDefinitions | generate/src/lib.rs:240-252 | on that graph the walk from the root gives exactly the choice definition of the root and then its alias |
| Definitions.ConvergingArms | generate/src/lib.rs:180-205 | the root's two edges are walked in stored order: the first arm reaches the end through node 1, the second only refers to node 1 |
| Definitions.ConvergingMeet | generate/src/lib.rs:180-205 | node 1 walked the first time leads to the end; walked a second time it yields a reference to its definition and is marked looped |
| CachedDefinitions.CachedWalk | generate/src/lib.rs:171-237 | the corrected visit only adds to its sets and appends definitions |
| CachedDefinitions.CachedArms | generate/src/lib.rs:224-230 | the corrected arms have one arm per outgoing edge, newest first, as the graph lists them, with that edge's label |
| CachedDefinitions.CachedWalkCovered | generate/src/lib.rs:171-237 | a corrected visit keeps every referenced node defined or still on the path, and its type refers only to such nodes |
| CachedDefinitions.CachedArmsCovered | generate/src/lib.rs:224-230 | walking the arms of a choice with the corrected visit keeps every reference covered |
| CachedDefinitions.CachedDefinitionsOf | generate/src/lib.rs:240-252 | the same with the corrected walk: nothing for a root without edges, otherwise a named type for the root last |
| CachedDefinitions.CachedComplete | generate/src/lib.rs:153-253 | with the corrected visit every node a definition refers to has a definition of the right kind |
| DefinitionVisitor.Visitor.constructor | generate/src/lib.rs:162-169 | a new visitor has visited nothing, looped nothing and has no definitions |
| DefinitionVisitor.Visitor.Visit | generate/src/lib.rs:171-237 | the type, the safe flag and the new visitor state are those the walk specifies |
| DefinitionVisitor.Visitor.VisitArms | generate/src/lib.rs:224-230 | the arms and the new state are those the walk of the remaining edges specifies |
| DefinitionVisitor.GenerateDefinitions | generate/src/lib.rs:153-253 | the definitions are exactly those specified for the graph |
| Protocol.Routes | generate/src/lib.rs:263 | the routes of a role are exactly the other roles, in increasing order |
| Protocol.GenerateNodes | generate/src/lib.rs:102-107 | one converted name per node |
| Protocol.ZipUnzip | generate/src/lib.rs:274 | splitting the parameters into names and types loses nothing |
| Protocol.UnzipZip | generate/src/lib.rs:274 | splitting undoes pairing names with types |
| Protocol.GenerateLabel | generate/src/lib.rs:269-280 | a label's name is converted and its parameter names and types pair back up to its parameters |
| Protocol.GenerateLabelAt | generate/src/lib.rs:269-280 | each parameter's name and type stay at the parameter's position |
| Protocol.GenerateLabels | generate/src/lib.rs:282-284 | one label per entry of the label table, in table order |
| Protocol.GenerateRoles | generate/src/lib.rs:255-267 | one generated role per role of the tree |
| Protocol.GenerateRolesSound | generate/src/lib.rs:255-267 | each generated role has converted names, one name per node, routes to exactly the other roles in order, and complete definitions |
| Protocol.Generate | generate/src/lib.rs:85-99 | an empty protocol name is the error that the name was not set; a role graph without nodes panics; otherwise the converted name, the roles and the labels |
| GenParser.IndexOf | generate/src/parser.rs:121 | the position of an item in an index set is absent exactly when the item is not there, and otherwise its first position |
| GenParser.KeysAppend | generate/src/parser.rs:141-156 | adding an entry at the end of an index map adds its name at the end of the keys |
| GenParser.DisplayParameters | generate/src/parser.rs:35-47 | the parameters joined with a comma and a space |
| GenParser.Context.constructor | generate/src/parser.rs:55-60 | both tables start empty |
| GenParser.Context.RoleIndex | generate/src/parser.rs:121 | a role's index is absent exactly when the name is not a role, and otherwise its position |
| GenParser.Context.LabelIndex | generate/src/parser.rs:141-156 | a label's index is absent exactly when the table has no such message, and otherwise its position |
| GenParser.Context.InsertRole | generate/src/parser.rs:290 | a role is added at the end exactly when it is new, and the result says whether it was |
| GenParser.Context.InsertLabel | generate/src/parser.rs:151-155 | a new label is added at the end of the table |
| GenParser.Context.ParseEdge | generate/src/parser.rs:97-165 | an edge naming its own role or an unknown role is an error; a label reused with other parameters is an error and leaves the table alone; otherwise the edge stands for its statement and a new label is appended |
| GenParser.UniqueLabel | generate/src/parser.rs:141-156 | in a table without repeated names every entry for a message has that entry's parameters |
| GenParser.ParseStatements | generate/src/parser.rs:224-232 | the statements parse exactly when every edge is accepted in order; the node names and one fitting edge per edge statement come out, and the label table only grows |
| GenParser.AddNodes | generate/src/parser.rs:234-238 | one fresh node per name in order, and each name maps to its last node |
| GenParser.ConnectReady | generate/src/parser.rs:240-263 | connecting two nodes keeps every edge between nodes, marks the source, and stays within the tables |
| GenParser.ConsistentStep | generate/src/parser.rs:240-263 | an edge that agrees with every earlier edge from its source extends the consistent prefix |
| GenParser.Clash | generate/src/parser.rs:245-258 | an edge disagreeing with the role or direction its source already has makes the edges inconsistent |
| GenParser.Unreached | generate/src/parser.rs:240-258 | after a mismatch no longer prefix is clean and no later edge is the one the build panics at |
| GenParser.Undeclared | generate/src/parser.rs:241 | an edge after a clean prefix that names a missing node is where the build panics, and the edges are not clean |
| GenParser.AllDeclared | generate/src/parser.rs:240-263 | clean edges all name nodes, so the build panics at none of them |
| GenParser.BuildDigraph | generate/src/parser.rs:234-265 | the graph comes out exactly when every edge names two nodes and edges from one node share peer role and direction, and then holds one node per name and the edges in order, marked and in range; the source panics exactly when the first edge that breaks this names a missing node; any other failure is the role or the direction mismatch |
| GenParser.DigraphParse | generate/src/parser.rs:224-266 | an edge that is not accepted is an error; past that, the graph comes out exactly when the edge statements name declared nodes and edges from one node share peer role and direction, and is then their graph (`Drawn`): one node per node statement, one edge per edge statement between the nodes it names carrying its message, each source node marked with its edges' role and direction; the parse panics exactly when the first edge that breaks this names a missing node |
| GenParser.CleanCoherent | generate/src/parser.rs:97-165 | with distinct role names, the parsed edges of every prefix are clean exactly when their statements name declared nodes and agree in role and direction per source |
| GenParser.BuiltDrawn | generate/src/parser.rs:234-265 | a graph built from the parsed edges of coherent statements is the graph of those statements |
| GenTree.DotNodes | generate/src/parser.rs:183-189 | at most one node name per statement |
| GenTree.DotEdges | generate/src/parser.rs:183-189 | at most one edge per statement |
| GenTree.CheckStep | generate/src/parser.rs:338-424 | an edge that fits the recorded payloads and directions agrees with every earlier edge |
| GenTree.ScanRejected | generate/src/parser.rs:338-424 | an edge failing one of the checks makes the graph invalid |
| GenTree.CheckGraphEdges | generate/src/parser.rs:334-426 | the graph passes exactly when every edge joins two declared nodes only, has a label not naming the own role, keeps its message's parameters and agrees with the direction and peer of earlier edges from its node |
| GenTree.ConnectNext | generate/src/parser.rs:198-217 | one more edge statement becomes a graph edge joining its nodes with its message in the table |
| GenTree.LabelledStep | generate/src/parser.rs:207-214 | converting one more edge sets its source node's role and direction from its first label and leaves every other node's as it was |
| GenTree.TryFrom | generate/src/parser.rs:172-221 | the graph comes out exactly when the check passes, and is then the converted graph: one node per node statement, one edge per edge statement carrying its first label's message, and every node an edge leaves marked with the peer role and direction of the first label of the last edge leaving it; the label table only grows |
| GenTree.RoleNames | generate/src/parser.rs:276-297 | one role name per input, in order |
| GenTree.RegisterRoles | generate/src/parser.rs:278-297 | the roles go in exactly when no role repeats, and then in input order |
| GenTree.ConvertGraphs | generate/src/parser.rs:299-306 | every graph converts exactly when each passes the check and is sound, and then each is converted in order, with roles and directions as `TryFrom` gives them |
| GenTree.TreeParse | generate/src/parser.rs:276-312 | a repeated role is the duplicate-graphs error; otherwise the tree comes out exactly when every graph passes and is sound, with a label table without repeats and every graph converted with its nodes' roles and directions |
| SpannedLexer.Merge | src/fsm/dot/parse/mod.rs:38-42 | the merged span runs from the first span's start to the second span's end |
| SpannedLexer.SameAsIgnoresSpans | src/fsm/dot/parse/mod.rs:91-101 | two spanned values are equal exactly when their inner values are, whatever their spans |
| SpannedLexer.ErrorsTextAppend | src/fsm/dot/parse/mod.rs:218-226 | each error adds its own line after the lines of the errors before it |
| SpannedLexer.ErrorsText | src/fsm/dot/parse/mod.rs:218-226 | the text is empty exactly when there is no error |
| SpannedLexer.ErrorLineShape | src/fsm/dot/parse/mod.rs:220-222 | each line is `error at `, the span's start, `: `, the message and a newline |
| SpannedLexer.SingleExpectedLine | src/fsm/dot/parse/mod.rs:182-226 | a lone token error expecting one kind prints as the single line `error at `, the span's start, `: expected ` and the kind's name |
| SpannedLexer.ErrorSink.constructor | src/fsm/dot/parse/mod.rs:207-210 | no errors |
| SpannedLexer.ErrorSink.Push | src/fsm/dot/parse/mod.rs:244-248 | the error is appended with its span |
| SpannedLexer.ErrorSink.IsEmpty | src/fsm/dot/parse/mod.rs:212-216 | true exactly when no error was pushed |
| SpannedLexer.ErrorSink.Take | src/fsm/dot/parse/mod.rs:124-129 | hands over every error pushed and leaves none |
| SpannedLexer.ErrorSink.Display | src/fsm/dot/parse/mod.rs:218-226 | the loop writes exactly the lines `ErrorsText` specifies |
| SpannedLexer.ErrorsTextPrefix | src/fsm/dot/parse/mod.rs:218-226 | the lines of the first `i + 1` errors are those of the first `i` followed by the line of error `i` |
| SpannedLexer.SpansAsWritten | src/fsm/dot/parse/mod.rs:71-81 | as written, each token is paired with the span of the token lexed before it |
| SpannedLexer.SpansAsWrittenExample | src/fsm/dot/parse/mod.rs:71-81 | for `a b`, the second token is reported at the first token's position |
| SpannedLexer.DropLexable | src/fsm/dot/parse/mod.rs:71-81 | taking a token keeps the rest lexable, and end of input shows exactly when nothing is left |
| SpannedLexer.Lexer.constructor | src/fsm/dot/parse/mod.rs:111-118 | nothing peeked, no names tried, every token pending |
| SpannedLexer.Lexer.FromTokens | src/fsm/dot/parse/mod.rs:71-81 | the next token with its own span, or end of input at the end span |
| SpannedLexer.Lexer.Peek | src/fsm/dot/parse/mod.rs:131-135 | the next pending token, kept as the peeked one |
| SpannedLexer.Lexer.Next | src/fsm/dot/parse/mod.rs:137-142 | the next pending token, the peeked one first, now taken |
| SpannedLexer.Lexer.NextIf | src/fsm/dot/parse/mod.rs:144-152 | on a match the token is taken and the tried names forgotten; otherwise nothing is taken and the kind's name is added |
| SpannedLexer.Lexer.PushErr | src/fsm/dot/parse/mod.rs:155-159 | the error goes to the shared error list |
| SpannedLexer.Lexer.Expect | src/fsm/dot/parse/mod.rs:162-167 | one error at the next token's span listing every name tried, which are then forgotten |
| SpannedLexer.Lexer.Finish | src/fsm/dot/parse/mod.rs:120-122 | `finish` asserts that no tried token kind is left over; the model makes that its precondition, and the readers that call it prove it holds there |
| SpannedLexer.Lexer.ExpectNextIf | src/fsm/dot/parse/mod.rs:169-176 | `next_if`, and on a mismatch one error listing the names tried, this kind last |
| ShuntingYard.OpPrecedence | fsm/src/dot/parse/transition.rs:246-252 | brackets and only brackets have precedence 1 |
| ShuntingYard.Apply | fsm/src/dot/parse/transition.rs:271-301 | a bracket is an unclosed-bracket error and too few operands a missing-operand error, at the operator's span; otherwise the operands are replaced by one expression over them |
| ShuntingYard.ApplyOperands | fsm/src/dot/parse/transition.rs:276-294 | the new expression's span runs from its first operand (or the `!`) to its last operand |
| ShuntingYard.AppliesFirstMeaning | fsm/src/dot/parse/transition.rs:308-321 | a stacked operator applies first exactly when it is not a bracket and binds tighter, or as tight with `op` left-associative |
| ShuntingYard.Kept | fsm/src/dot/parse/transition.rs:308-321 | every operator above the kept ones applies first and the one below them does not |
| ShuntingYard.PushOfShape | fsm/src/dot/parse/transition.rs:303-325 | `push_operator` applies exactly the operators above the kept ones and stacks `op`; its only error is a missing operand |
| ShuntingYard.PushOf | fsm/src/dot/parse/transition.rs:303-325 | the stacks after `push_operator`, or its error; `PushOfShape` states that exactly the operators above the kept ones are applied and `op` is stacked, and that its only error is a missing operand |
| ShuntingYard.LastBracket | fsm/src/dot/parse/transition.rs:428-431 | the topmost open bracket, with no bracket above it |
| ShuntingYard.CloseOfShape | fsm/src/dot/parse/transition.rs:427-440 | a `)` applies the operators above the topmost bracket and drops it; with no bracket it is an unclosed-bracket error at the `)` |
| ShuntingYard.CloseOf | fsm/src/dot/parse/transition.rs:427-440 | the stacks after a `)`, or its error; `CloseOfShape` states that the operators above the topmost bracket are applied and the bracket dropped, and that with no bracket it is an unclosed-bracket error at the `)` |
| ShuntingYard.DrainOfBracket | fsm/src/dot/parse/transition.rs:443-448 | an open bracket left on the stack at the end is an error |
| ShuntingYard.DrainOf | fsm/src/dot/parse/transition.rs:443-448 | the output after applying every stacked operator at the end, or its error; `DrainOfBracket` states that an open bracket left on the stack is an error |
| ShuntingYard.Unexpected | fsm/src/dot/parse/transition.rs:456-461 | one unexpected-expression error at each surplus output |
| ShuntingYard.BinaryOf | fsm/src/dot/parse/transition.rs:335-377 | a binary operator exactly for the ten operator tokens |
| ShuntingYard.OperandOf | fsm/src/dot/parse/transition.rs:389-402 | an operand exactly for an identifier, a boolean or a number, at the token's span |
| ShuntingYard.OperatorOf | fsm/src/dot/parse/transition.rs:327-377 | `!` or a binary operator token gives an operator at the token's span |
| ShuntingYard.LoopKindsShape | fsm/src/dot/parse/transition.rs:385-427 | a pass that matches nothing tries the terminal, the operands, `!`, the binary operators, `(` and `)`, in that order |
| ShuntingYard.StageOf | fsm/src/dot/parse/transition.rs:384-441 | one pass of the loop goes on only past a token that is neither the terminal nor the end, and every error it pushes is printable |
| ShuntingYard.LoopOf | fsm/src/dot/parse/transition.rs:384-441 | the loop leaves a suffix of the tokens, and its errors are printable |
| ShuntingYard.FinishOf | fsm/src/dot/parse/transition.rs:443-464 | after the terminal, an error always pushes at least one printable message |
| ShuntingYard.ExpressionOf | fsm/src/dot/parse/transition.rs:379-465 | `parse_expression` fails exactly when it pushes an error, and leaves a suffix of the tokens |
| InfixReading.KindOf | fsm/src/dot/parse/transition.rs:335-377 | the token an operator is read from is one `BinaryOf` maps back to it |
| InfixReading.KindOfInverse | fsm/src/dot/parse/transition.rs:335-377 | `BinaryOf` and `KindOf` are inverse on the operator tokens |
| InfixReading.BracketedLexable | fsm/src/dot/parse/transition.rs:11-88 | the tokens of a bracketed expression are lexable |
| InfixReading.LoopBracketed | fsm/src/dot/parse/transition.rs:384-441 | the loop reads a fully bracketed expression onto the outputs and leaves the stacks otherwise unchanged |
| InfixReading.BracketedUnary | fsm/src/dot/parse/transition.rs:384-441 | given the passes over the tokens of `x`, the loop reads `( ! x )` as the negation of `x` on the outputs and leaves the operators as they were |
| InfixReading.BracketedBinary | fsm/src/dot/parse/transition.rs:384-441 | given the passes over the tokens of `l` and `r`, the loop reads `( l op r )` as the application of `op` on the outputs and leaves the operators as they were |
| InfixReading.ReadBracketed | fsm/src/dot/parse/transition.rs:379-465 | a fully bracketed expression followed by the terminal parses back to that expression, with no error |
| InfixReading.LoopToTerminal | fsm/src/dot/parse/transition.rs:303-325 | the loop over a bracketed expression followed by the terminal stops before the rest with only that expression on the outputs and no operator left |
| InfixReading.ReadEmpty | fsm/src/dot/parse/transition.rs:385-454 | the terminal straight away is an empty expression and no error |
| InfixReading.PushSecond | fsm/src/dot/parse/transition.rs:303-325 | after `x p y q`, `p` has been applied exactly when it binds at least as tight as `q` |
| InfixReading.FinishSecond | fsm/src/dot/parse/transition.rs:443-464 | the stacks of `x p y q z` drain to the grouping precedence calls for |
| InfixReading.ReadTwoOperators | fsm/src/dot/parse/transition.rs:303-325 | `x p y q z` groups to the left when `p` binds at least as tight as `q`, and to the right otherwise |
| InfixReading.TwoStacks | fsm/src/dot/parse/transition.rs:443-464 | after pushing `q` over `x p y` and then `z`, emptying the stacks gives the left grouping when `p` binds at least as tight as `q` and the right one otherwise |
| LocalTypes.Builder.constructor | src/fsm/local.rs:16-21 | nothing seen, no loop variables, the counter at 0 |
| LocalTypes.Builder.VariableOf | src/fsm/local.rs:35-46 | a state's existing variable is returned unchanged; otherwise the next number is assigned to it and the counter grows by one |
| LocalTypes.Builder.Build | src/fsm/local.rs:48-69 | a state on the path becomes its recursion variable; a state without transitions ends; otherwise the type lists the state's transitions newest first, wrapped in `rec` when it was reached again; the path is restored, every variable used is bound on the path, the type is well formed, and it describes the machine from the state: each branch's transition is the state's next one and its type describes that transition's target, `end` stands for a state without transitions and `X` for the state bound to it |
| LocalTypes.Builder.Close | src/fsm/local.rs:61-68 | once the branches are built, the state leaves the path, its variable is taken off, and the branches are wrapped in `rec` exactly when a variable had been bound to it, a variable the body then uses; the type lists the transitions, stays well formed and describes the machine from the state |
| LocalTypes.Builder.Extend | src/fsm/local.rs:59-60 | one more target is built and its branch appended after the earlier ones, which stay as they were; the branches built so far still describe their targets |
| LocalTypes.New | src/fsm/local.rs:12-24 | the local type of state 0 of a non-empty machine is closed and printable, lists state 0's transitions newest first or ends, describes the machine from state 0 with no state bound, and binds with `rec` only a variable its body uses |
| LocalTypes.DescribesGrows | src/fsm/local.rs:59-64 | a type that describes the machine from a state still does once more states have variables bound |
| LocalTypes.BranchesGrow | src/fsm/local.rs:59-61 | branches that describe their targets still do once more states have variables bound |
| LocalTypes.ExtendStep | src/fsm/local.rs:59-61 | appending a branch that describes the next target, and uses every variable bound while it was built, keeps the collected branches describing their targets and using every variable bound since the state was entered |
| LocalTypes.BranchFreeVarsAll | src/fsm/local.rs:59-61 | the free variables of a branch list are the union of those of its branches, counted in order |
| LocalTypes.AllFreeAppend | src/fsm/local.rs:59-61 | one more branch adds exactly its free variables |
| LocalTypes.Unbound | src/fsm/local.rs:19 | one empty slot per state, as `vec![None; size]` starts |
| LocalTypes.LocalText | src/fsm/local.rs:72-96 | the text is never empty, and it is `end` exactly for the ending type |
| LocalTypes.WellFormedPrintable | src/fsm/local.rs:78-79 | every branch list of a built type is non-empty, as the display asserts |
| LocalTypes.WellFormedMonotone | src/fsm/local.rs:40-43 | a type well formed under some variable count stays so as the counter grows |
| LocalTypes.BranchesText | src/fsm/local.rs:78-93 | one branch prints as `transition; type`, several in square brackets separated by commas |
| LocalTypes.LoopText | src/fsm/local.rs:75-77 | a self-loop prints as `rec X0 . A!m; X0` |
| LocalTypes.ChoiceText | src/fsm/local.rs:81-92 | a two-way choice prints as `[B?x; end, B?y; end]` |
| Normalize.Intern | src/fsm/mod.rs:203-211 | a key already numbered keeps its index and the table; a new key gets the next index, the table's size |
| Normalize.InternDense | fsm/src/lib.rs:599-607 | interning keeps the numbering dense and one-to-one, numbers the key, and changes no earlier index |
| Normalize.InternAllKeeps | src/fsm/mod.rs:213-228 | interning a run of keys changes no earlier index, numbers every key seen, and keeps the numbering dense, so distinct keys never share an index |
| Normalize.NormalizedValid | fsm/src/lib.rs:609-624 | a one-to-one renaming of roles that keeps edges in place keeps the machine invariant |
| Normalize.Normalizer.constructor | fsm/src/lib.rs:589-596 | both tables start empty |
| Normalize.Normalizer.RenameStates | fsm/src/lib.rs:614-620 | every choice's role is numbered in state order, and each state becomes its renamed copy |
| Normalize.Normalizer.RenameEdges | fsm/src/lib.rs:621 | every edge's label is numbered in edge order, and each edge keeps its endpoints with its label's index |
| Normalize.Normalizer.Normalize | fsm/src/lib.rs:609-624 | the machine's role is numbered first, then each choice's role in state order, then each edge's label in edge order; states, actions and edges keep their places, and a valid machine stays valid |
| Pairs.Swap | src/serialize/pair.rs:25-27 | the two sides exchanged |
| Pairs.SwapInvolution | src/serialize/pair.rs:25-27 | swapping twice gives the pair back |
| Pairs.Zip | src/serialize/pair.rs:29-31 | the left sides paired and the right sides paired |
| Pairs.Map | src/serialize/pair.rs:33-35 | the function applied to each side |
| Pairs.ZipUnzip | src/serialize/pair.rs:29-35 | projecting each side of a zip gives back the two pairs |
| Pairs.ToTuple | src/serialize/pair.rs:64-68 | the tuple holds the left side first |
| Pairs.ToArray | src/serialize/pair.rs:70-74 | the two-element array holds the left side first |
| Pairs.PairText | src/serialize/pair.rs:50-54 | `<left, right>`, four characters longer than the two sides |
| Pairs.PairIterator.constructor | src/serialize/pair.rs:37-39 | both sides are pending |
| Pairs.PairIterator.Next | src/serialize/pair.rs:56-62 | yields the first pending side and removes it, or nothing once both are taken |
| Pairs.Drain | src/serialize/pair.rs:37-62 | iterating a pair yields its left side and then its right side |
| Matrices.Offset | src/subtype/matrix.rs:22-25 | an in-bounds index's row-major offset lies inside the cells |
| Matrices.OffsetInjective | fsm/src/subtype/matrix.rs:21-24 | distinct in-bounds indexes have distinct offsets |
| Matrices.OffsetOnto | fsm/src/subtype/matrix.rs:21-24 | every cell is the offset of an in-bounds index |
| Matrices.Matrix.constructor | src/subtype/matrix.rs:13-20 | `left * right` cells, each holding the initial value |
| Matrices.Matrix.Get | src/subtype/matrix.rs:27-29 | the cell at the index's offset; the index must be in bounds |
| Matrices.Matrix.Set | src/subtype/matrix.rs:31-34 | writes the addressed cell and leaves every other cell unchanged |
| Matrices.NewBitMatrix | src/serialize/bit_matrix.rs:10-15 | a bit matrix with every bit clear |
| Prefixes.IsEmptyLive | src/subtype/prefix.rs:32-34 | on a valid buffer, `is_empty` holds exactly when no live entry is left |
| Prefixes.Entries | fsm/src/subtype/prefix.rs:108-113 | every entry `iter_full` yields is a live entry at or after the cursor, with its own index |
| Reduction.EntriesIncreasing | fsm/src/subtype/prefix.rs:108-113 | `iter_full` yields strictly increasing indexes |
| Prefixes.WithoutMembers | fsm/src/subtype/prefix.rs:60-70 | taking an index out keeps exactly the entries with a different index |
| Prefixes.EntriesMark | src/subtype/prefix.rs:57-67 | flagging a live entry removed takes exactly that index out of the live entries |
| Prefixes.SkipRemoved | src/subtype/prefix.rs:52-54 | the first entry at or after the position that is not flagged removed, or the end |
| Prefixes.EntriesSkip | src/subtype/prefix.rs:52-54 | skipping flagged entries leaves the live entries unchanged |
| Prefixes.RemoveFirstStateFacts | src/subtype/prefix.rs:49-55 | `remove_first` keeps the invariant, only moves forward, and drops exactly the first live entry |
| Prefixes.RemoveFirstState | src/subtype/prefix.rs:49-55 | the state `remove_first` leaves; `RemoveFirstStateFacts` states that it keeps the invariant, only moves forward and drops exactly the first live entry |
| Prefixes.RemoveStateFacts | src/subtype/prefix.rs:57-67 | `remove(i)` keeps the invariant, only moves forward, and takes out exactly the entry at `i` |
| Prefixes.RemoveState | src/subtype/prefix.rs:57-67 | the state `remove(i)` leaves; `RemoveStateFacts` states that it keeps the invariant, only moves forward and takes out exactly the entry at `i` |
| Prefixes.FreshSnapshotUnmodified | src/subtype/prefix.rs:69-90 | a snapshot taken now is valid and reports no modification |
| Prefixes.PushModifies | src/subtype/prefix.rs:83-90 | a push after a snapshot counts as a modification |
| Prefixes.PushOf | fsm/src/subtype/prefix.rs:48-50 | the state `push` leaves keeps the invariant and is never empty; `PushModifies` states that it counts as a modification after a snapshot |
| Prefixes.ExtendsTransitive | fsm/src/subtype/prefix.rs:48-70 | sequences of pushes and removals compose |
| Prefixes.ExtendsValidSnapshot | src/subtype/prefix.rs:77-81 | a snapshot stays valid while the buffer is only pushed to and removed from |
| Prefixes.PrefixText | src/subtype/prefix.rs:115-128 | `empty` for no live entry, the entry itself for one |
| Prefixes.Prefix.constructor | fsm/src/subtype/prefix.rs:24-32 | no entries, cursor at 0, no removals, and the invariant holds |
| Prefixes.Prefix.First | fsm/src/subtype/prefix.rs:39-46 | nothing exactly when no live entry is left, otherwise the first live entry |
| Prefixes.Prefix.Push | fsm/src/subtype/prefix.rs:48-50 | appends one live entry; the live entries grow by it and the invariant holds |
| Prefixes.Prefix.RemoveFirst | fsm/src/subtype/prefix.rs:52-58 | the live entries lose their first element and the invariant holds |
| Prefixes.Prefix.Remove | fsm/src/subtype/prefix.rs:60-70 | exactly the entry at `i` leaves the live entries and the invariant holds |
| Prefixes.Prefix.TakeSnapshot | fsm/src/subtype/prefix.rs:72-78 | the size, the cursor and the log length of the buffer |
| Prefixes.Prefix.Revert | fsm/src/subtype/prefix.rs:95-106 | after pushes and removals, reverting gives back exactly the state the snapshot was taken in |
| Reduction.Rejects | src/subtype/mod.rs:295-302 | an input is blocked by any output and by any action on its role but not by an input on another role; an output only by an output on its role |
| Reduction.ReorderRestOutcomes | src/subtype/mod.rs:271-281 | a match is the first equal entry with nothing blocking before it, a rejection the first blocking entry with no match before it, and `Some(None)` a scan with neither |
| Reduction.MatchShift | src/subtype/mod.rs:271-281 | past a first entry that neither matches nor blocks, the scan finds a clear match in the sequence exactly when it finds one in the rest |
| Reduction.RejectShift | src/subtype/mod.rs:271-281 | past such a first entry, a clear blocking entry exists in the sequence exactly when one exists in the rest |
| Reduction.Reorder | src/subtype/mod.rs:259-282 | a returned index belongs to a later right entry equal to the left head |
| Reduction.ReorderIndex | src/subtype/mod.rs:259-308 | a returned index is a live entry of the right buffer holding the left head |
| Reduction.ReduceExtends | src/subtype/mod.rs:284-316 | both buffers stay valid and only lose entries |
| Reduction.ReduceSpec | src/subtype/mod.rs:284-316 | a failed reduction stops at two live heads that differ |
| Reduction.ReduceStep | src/subtype/mod.rs:284-313 | one round of the loop either stops, succeeding on an empty buffer or on a head no right action matches and failing on a blocked head, or removes the head on each side and keeps the outcome of the rest |
| Reduction.ReduceStops | src/subtype/mod.rs:284-316 | success leaves a buffer empty, or two different heads that no later right action matches; failure leaves a right action blocking the left head |
| Reduction.ReduceIdentical | src/subtype/mod.rs:284-292 | two buffers with the same live actions cancel completely |
| Reduction.ReduceCancels | src/subtype/mod.rs:284-316 | what is taken out of the left buffer is, as a multiset, exactly what is taken out of the right one |
| Reduction.ReorderScan | src/subtype/mod.rs:259-282 | the loop returns what `Reorder` specifies |
| Reduction.Reduce | src/subtype/mod.rs:258-316 | the loop's outcome and both new buffers are those `ReduceSpec` specifies |
| Printers.WriteStates | src/fsm/dot/mod.rs:26-28 | one `    i;` line per state, in state order |
| Printers.WriteEdges | src/fsm/dot/mod.rs:34-37 | one `    f -> t [label="..."];` line per transition, in edge order |
| Printers.Dot | src/fsm/dot/mod.rs:17-41 | the header with the role (quoted in the newer printer), a line break before each non-empty block, the state lines, the transition lines, then `}` |
| Printers.DotText | src/fsm/dot/mod.rs:17-41 | the text starts with the `digraph` header naming the role and ends with `}` |
| Printers.DotLines | src/fsm/dot/mod.rs:17-41 | for names without line breaks, the text has one line break per state and per transition plus one before each non-empty block |
| Printers.DotEmpty | src/fsm/dot/mod.rs:17-41 | a machine with no states prints `digraph "r" {}` (or `digraph r {}` in the older printer) |
| Printers.StateLinesCount | src/fsm/dot/mod.rs:26-28 | the state block has exactly one line break per state |
| Printers.EdgeLinesCount | src/fsm/dot/mod.rs:34-37 | the transition block has exactly one line break per transition when no name holds one |
| Printers.Petrify | src/fsm/petrify.rs:6-27 | the two header lines, one `sF role action label sT` line per transition in edge order, then the marking and `.end`; the machine must have a state |
| Printers.PetrifyText | src/fsm/petrify.rs:13-27 | the text starts with `.outputs` and `.state graph` lines and ends with `.marking s0` and `.end` with no final line break |
| Printers.LabelNames | fsm/src/petrify.rs:18-22 | each edge keeps its endpoints and carries only its message's label |
| Printers.PetrifyMessages | fsm/src/petrify.rs:6-27 | the newer printer writes the text of the machine with each message replaced by its label |
| Printers.PetrifyIgnoresParameters | fsm/src/petrify.rs:18-22 | machines that differ only in message parameters or assignments print the same |
| Refinements.Apply | src/effect.rs:42-106 | a side effect keeps the set of variables, updates only the named one when it is present, and `Constant` changes nothing |
| Refinements.Variables.constructor | src/effect.rs:6-14 | the variables hold the given values |
| Refinements.Variables.SideEffect | src/effect.rs:13-48 | the new variables are `Apply` of the old ones, and they stay within `i32` |
| Refinements.IncrDecr | src/effect.rs:42-68 | `Decr` by a constant undoes `Incr` by the same constant |
| Refinements.DivSubtracts | src/effect.rs:99-106 | as written, `Div` by 2 turns 10 into 8, the same as `Decr` by 2 |
| Refinements.TruncatedDivSpec | src/effect.rs:99-106 | Rust's truncating quotient: the remainder is smaller than the divisor and has the dividend's sign |
| Refinements.ApplyDiv | src/effect.rs:99-106 | the intended `Div`: only the named variable changes, to its truncated quotient |
| Refinements.MultThenDiv | src/effect.rs:80-106 | the intended `Div` undoes `Mult` by the same non-zero constant |
| Refinements.CheckLess | src/predicate.rs:143-151 | success exactly when both variables are present and the left one is smaller |
| Refinements.Check | src/predicate.rs:36-125 | `Tautology` always holds; `LTnVar` compares two variables; `LTnConst` holds exactly when the variable is present and below the constant |
| Refinements.LessIrreflexive | src/predicate.rs:83-95 | `LTnVar` of a variable with itself never holds |
| Refinements.LessTransitive | src/predicate.rs:143-151 | satisfied comparisons chain |
| Refinements.IncrPreservesLess | src/predicate.rs:83-95 | incrementing the right-hand variable by a non-negative amount keeps `LTnVar` satisfied |
| Statistics.Insert | overhead/eval.py:27 | one more element, the same multiset plus it |
| Statistics.InsertSorted | overhead/eval.py:27 | inserting into a sorted sequence keeps it sorted |
| Statistics.Sort | overhead/eval.py:27 | a permutation of the values |
| Statistics.SortSorted | overhead/eval.py:27 | the result is in increasing order |
| Statistics.SplitParts | overhead/eval.py:28-33 | halves of `n / 2` values; for odd `n` the middle value lies between them, for even `n` the halves join back and the median is the mean of the middle values |
| Statistics.Split | overhead/eval.py:28-33 | the halves and the median of a sorted, non-empty sample; `SplitParts` states the halves' sizes, where the middle value lies for odd sizes and that the median is the mean of the middle two for even sizes |
| Statistics.Median | overhead/eval.py:26-33 | two halves of `n / 2` values each which, with the median for odd `n`, hold exactly the sample's values |
| Statistics.MedianSplits | overhead/eval.py:26-33 | the same, for the sorted sample |
| Statistics.MedianOrdered | overhead/eval.py:26-33 | the lower half is at most the median, which is at most the upper half |
| Statistics.MedianOfPermutation | overhead/eval.py:26-33 | the median does not depend on the order of the sample |
| Statistics.SortUnique | overhead/eval.py:27 | two sorted sequences with the same elements are equal |
| Statistics.Differences | overhead/eval.py:93-95 | one difference per value of the first sample, of the sorted values at the same position |
| Statistics.DifferencesOfPermutation | overhead/eval.py:93-95 | a sample against a reordering of itself gives only zeros |
| VariableLocation.StepGrows | dynamic_verify/src/main.rs:55-71 | a round of the rules keeps every fact and adds the immediate deductions |
| VariableLocation.Immediate | dynamic_verify/src/main.rs:55-57 | the two facts each send gives at once: the sender holds the variable in the source state, the receiver in the target state; `StepGrows` states that every round adds them and `SingleSend` that a single send gives only these |
| VariableLocation.Backward | dynamic_verify/src/main.rs:59-65 | the facts the two backward rules carry from a send's target state to its source state; `StepGrows`, `StepMonotone` and `Facts` state that a round keeps what it had, is monotone and has the least closed set as its fixpoint |
| VariableLocation.Forward | dynamic_verify/src/main.rs:66-71 | the facts the two forward rules carry from a send's source state to its target state; the same lemmas state their meaning, and `StepInUniverse` that both directions only name states, participants and variables of the sends |
| VariableLocation.StepMonotone | dynamic_verify/src/main.rs:55-71 | a round from below a closed set stays below it |
| VariableLocation.StepInUniverse | dynamic_verify/src/main.rs:55-71 | the rules only name states, participants and variables of the sends |
| VariableLocation.Advance | dynamic_verify/src/main.rs:55-71 | a round from a set that is not closed grows it strictly inside the finite universe |
| VariableLocation.Facts | dynamic_verify/src/main.rs:46-71 | `In` is closed under the rules, holds the immediate deductions, lies below every closed set and inside the universe |
| VariableLocation.NotVerifiableFV | dynamic_verify/src/main.rs:74-78 | a conflict exactly when two refined variables of one step are held by different participants in its source state |
| VariableLocation.NotVerifiableDup | dynamic_verify/src/main.rs:80-82 | a duplicate exactly when one variable is held by two different participants in one state |
| VariableLocation.DuplicateSymmetric | dynamic_verify/src/main.rs:80-82 | every duplicate is also flagged with its participants swapped |
| VariableLocation.SingleSend | dynamic_verify/src/main.rs:55-71 | from a single send only its two immediate facts follow |
| VariableLocation.EdgeSends | dynamic_verify/src/main.rs:97-132 | one send per parameter of the edge's first label, none for an unlabelled edge |
| VariableLocation.EdgeRefinements | dynamic_verify/src/main.rs:133-143 | one refinement fact per refined variable of the edge's first label |
| VariableLocation.AllSendsMembers | dynamic_verify/src/main.rs:94-148 | a send is extracted exactly when some labelled edge carries that parameter |
| VariableLocation.PushSends | dynamic_verify/src/main.rs:100-132 | the list grows by the edge's sends |
| VariableLocation.PushRefinements | dynamic_verify/src/main.rs:133-143 | the list grows by the edge's refinement facts |
| VariableLocation.Generate | dynamic_verify/src/main.rs:94-148 | the sends and refinement facts of every labelled edge, in edge order |
| SessionTypes.SameTypeById | src/session/serialize.rs:21-46 | two types are equal exactly when their ids are, and that is the same as the two descriptions being equal, since the id determines the name |
| SessionTypes.ActionOf | src/session/serialize.rs:126-162 | `Send` and `Select` are outputs, and `Receive` and `Branch` inputs |
| SerializeWalk.GrowOwner | src/session/serialize.rs:70-75 | a history with an inverse stays so when a new type id gets the next state |
| SerializeWalk.OwnerInjective | src/session/serialize.rs:63-77 | a history with an inverse never gives two type ids the same state |
| SerializeWalk.ArmsAttach | src/session/serialize.rs:55-61 | giving an arm without an edge the next edge keeps arms and edges inverse to each other |
| SerializeWalk.ArmsGrow | src/session/serialize.rs:70-75 | arms keep their edges, and their ends keep their states, when the history grows |
| SerializeWalk.ArmsOfVisited | src/session/serialize.rs:63-77 | only arms of types already in the history have edges, so a new type has none |
| SerializeWalk.ArmsExact | src/session/serialize.rs:104-109 | once every arm of every visited type has an edge, the arms behind the edges are exactly those arms, each once, and every continuation of a visited type is visited |
| SerializeWalk.ExpandedFresh | src/session/serialize.rs:104-109 | before the next arm of a type is expanded it has no edge |
| SerializeWalk.ExpandedStep | src/session/serialize.rs:148-153 | serialising the `n`-th arm extends an expansion of `n` arms to `n + 1` |
| SerializeWalk.ExpandedSerialized | src/session/serialize.rs:148-153 | a type whose arms are all expanded is serialised, with only its new arms and the pending one gaining edges |
| SessionSerialize.ArmTransition | src/session/serialize.rs:104-107 | an arm's transition has the definition's peer role and action, and a message labelled by the arm's label type with nothing else |
| SessionSerialize.AttachHistory | src/session/serialize.rs:55-61 | giving a state its definition's peer and action keeps type ids and states in correspondence |
| SessionSerialize.AttachEdges | src/session/serialize.rs:55-61 | the new edge stands for the pending arm, and every older edge still stands for its arm |
| SessionSerialize.AttachKeeps | src/session/serialize.rs:55-61 | attaching the pending transition succeeds, so the `unwrap` never fails, and the arm now has its edge |
| SessionSerialize.GrowFits | src/session/serialize.rs:70-75 | every state still fits its type's definition when a new type gets a new `End` state |
| SessionSerialize.GrowHistory | src/session/serialize.rs:70-75 | a new type id with a new `End` state keeps type ids and states in correspondence |
| SessionSerialize.GrowEdges | src/session/serialize.rs:70-75 | arms keep their edges when the history grows |
| SessionSerialize.GrowGraph | src/session/serialize.rs:71 | a new `End` state keeps the FSM well formed |
| SessionSerialize.GrowKeeps | src/session/serialize.rs:70-75 | a new type's fresh `End` state keeps the invariant |
| SessionSerialize.PendKeeps | src/session/serialize.rs:104-108 | making an arm without an edge pending keeps the invariant |
| SessionSerialize.StatesExact | src/session/serialize.rs:83-93 | once every arm has its edge, a visited type with arms has its definition's peer and action on its state |
| SessionSerialize.Serializer.constructor | src/session/serialize.rs:165-169 | an FSM of the role with no states, an empty history and nothing pending |
| SessionSerialize.Serializer.AddStateIndex | src/session/serialize.rs:55-61 | the pending transition, if any, now ends at the state and is cleared; the arm behind it has its edge |
| SessionSerialize.Serializer.AddState | src/session/serialize.rs:63-77 | a type seen before gives `None` and keeps the history; a new one gets the next state, `End` for now; either way the pending transition ends at the type's state |
| SessionSerialize.Serializer.BeginChoices | src/session/serialize.rs:83-93 | `add_state`, and for a new state a serialiser with that state, the peer role and the action |
| SessionSerialize.Serializer.SerializeType | src/session/serialize.rs:120-162 | the type gets its state (the next one when new); the history only grows; the only arms gaining edges are the pending one and those of types new to the history, and each of those arms gains one |
| SessionSerialize.Serializer.SerializeChoicesType | src/session/serialize.rs:126-162 | `serialize_choices`, then every arm of a new type, with the same effect as `SerializeType` states |
| SessionSerialize.Serializer.SerializeChoices | src/session/serialize.rs:148-162 | every arm of the type gains its edge, and no other arm of it |
| SessionSerialize.Serializer.SerializeChoice | src/session/serialize.rs:104-109 | the arm's transition becomes pending, and serialising the continuation gives that arm its edge |
| SessionSerialize.Serialize | src/session/serialize.rs:164-173 | a valid FSM of the role in which each type reachable from the root has exactly one state, the root's first; an `End` type's state has no transitions; a type with arms has its peer and action; the edges are exactly one per arm of each visited type, from its state to its continuation's, labelled by the arm's label type |
| GraphSerialize.DirectionText | src/serialize.rs:18-25 | `!` exactly for `Send` and `?` exactly for `Receive` |
| GraphSerialize.NodeText | src/serialize.rs:35-42 | empty exactly for `End`; otherwise the role followed by the direction's character |
| GraphSerialize.NodeTextInjective | src/serialize.rs:35-42 | different nodes display differently |
| GraphSerialize.DirectionOf | src/serialize.rs:135-175 | `Send` for `Send` and `Select`, `Receive` for `Receive` and `Branch` |
| GraphSerialize.NodeOf | src/serialize.rs:81-97 | `End` exactly for an `End` definition; otherwise the peer role's name with the definition's direction |
| GraphSerialize.Linked | src/serialize.rs:59-63 | the nodes stay; the pending edge, if any, is appended into the node |
| GraphSerialize.AttachEdges | src/serialize.rs:59-63 | the new edge stands for the pending arm, and every older edge still stands for its arm |
| GraphSerialize.LinkKeeps | src/serialize.rs:59-63 | linking the pending edge to the node of its arm's continuation gives that arm its edge and keeps the invariant |
| GraphSerialize.GrowHistory | src/serialize.rs:72-77 | a new type id with its node keeps type ids and nodes in correspondence |
| GraphSerialize.GrowEdges | src/serialize.rs:72-77 | arms keep their edges when the history grows |
| GraphSerialize.GrowKeeps | src/serialize.rs:72-77 | a new type's node keeps the invariant |
| GraphSerialize.PendKeeps | src/serialize.rs:106-108 | making an arm without an edge pending keeps the invariant |
| GraphSerialize.Serializer.constructor | src/serialize.rs:178-182 | an empty graph, an empty history and nothing pending |
| GraphSerialize.Serializer.AddNodeIndex | src/serialize.rs:59-63 | the pending edge, if any, is added into the node and cleared |
| GraphSerialize.Serializer.AddNode | src/serialize.rs:65-79 | a type seen before gives `None` and keeps the history; a new one gets the next node, holding the node given; either way the pending edge ends at the type's node |
| GraphSerialize.Serializer.BeginChoices | src/serialize.rs:85-97 | `add_node` with the peer role's name and the direction, giving the new node's index for a new type |
| GraphSerialize.Serializer.SerializeType | src/serialize.rs:129-175 | the type gets its node (the next one when new); the history only grows; the only arms gaining edges are the pending one and those of types new to the history |
| GraphSerialize.Serializer.SerializeChoicesType | src/serialize.rs:135-175 | `serialize_choices`, then every arm of a new type, with the same effect as `SerializeType` states |
| GraphSerialize.Serializer.SerializeChoices | src/serialize.rs:157-175 | every arm of the type gains its edge, and no other arm of it |
| GraphSerialize.Serializer.SerializeChoice | src/serialize.rs:106-109 | the arm's edge becomes pending, and serialising the continuation gives that arm its edge |
| GraphSerialize.Serialize | src/serialize.rs:177-186 | each type reachable from the root has exactly one node, the root's first, and it is its definition's node; the edges are exactly one per arm of each visited type, from its node to its continuation's, labelled by the label type's name |
| Unrolling.Quantify | src/subtype/mod.rs:127-193 | `All` holds exactly when every result holds, `Any` exactly when some result holds |
| Unrolling.ShortCircuit | src/subtype/mod.rs:166-189 | stopping a scan at its first decisive result gives the quantifier's value over all results |
| Unrolling.QuantifyLast | src/subtype/mod.rs:183-189 | a scan that ends on a decisive result has that result |
| Unrolling.QuantifyNone | src/subtype/mod.rs:166-193 | a scan with no decisive result keeps its starting value |
| Unrolling.RowOfShape | src/subtype/mod.rs:166-186 | the inner loop, as `RowOf` specifies it, stops exactly at its first decisive result and answers the inner quantifier over its results |
| Unrolling.RowOf | src/subtype/mod.rs:166-186 | the inner loop's visits from the `j`-th inner transition on; `RowOfShape` states that it stops exactly at its first decisive result and answers the inner quantifier over its results |
| Unrolling.TryOf | src/subtype/mod.rs:168-181 | one attempt of the inner loop: the inner buffer reverted to its snapshot and extended by one transition, and the pair of targets visited; `Subtyping.Visitor.Try` is proved to return exactly it, and `RowStep` states how it extends a row |
| Unrolling.BranchOfShape | src/subtype/mod.rs:157-186 | one outer transition gives a row of that shape over the inner transitions |
| Unrolling.BranchOf | src/subtype/mod.rs:157-186 | the row for one outer transition; `BranchOfShape` states that it is a row of `RowOf`'s shape over the inner transitions |
| Unrolling.RowGoesOn | src/subtype/mod.rs:183-185 | a result that is not decisive keeps a row's shape when more results follow |
| Unrolling.RowsStop | src/subtype/mod.rs:188-190 | a row decisive for the outer quantifier ends the rows, and their answer is that result |
| Unrolling.RowsGoOn | src/subtype/mod.rs:157-191 | a row that is not decisive for the outer quantifier keeps the shape and the answer of the rows after it |
| Unrolling.RowsFromShape | src/subtype/mod.rs:157-193 | rows built one outer transition at a time have the shape `unroll` gives them and answer the outer quantifier over the rows' inner quantifiers |
| Unrolling.UnrollOfRows | src/subtype/mod.rs:157-193 | the outer loop, as `UnrollOf` specifies it, builds its rows one outer transition at a time and stops at the first decisive row |
| Unrolling.UnrollOfShape | src/subtype/mod.rs:157-193 | the rows of `unroll` stop at the first row decisive for the outer quantifier, each row stops at its first decisive visit, and the answer is the outer quantifier over the inner quantifiers of the rows |
| Unrolling.UnrollOf | src/subtype/mod.rs:157-193 | the rows of `unroll` from the `i`-th outer transition on; `UnrollOfShape` states that they stop at the first row decisive for the outer quantifier, each row stops at its first decisive visit, and the answer is the outer quantifier over the rows' inner ones |
| Unrolling.RowStep | src/subtype/mod.rs:167-186 | one more inner visit extends the row as `RowOf` says |
| Unrolling.UnrollStep | src/subtype/mod.rs:157-191 | one more row extends the rows as `UnrollOf` says |
| Subtyping.QuantifiersFor | src/subtype/mod.rs:227-244 | every left output and every right input is quantified universally, and the sides swap exactly when both states receive |
| Subtyping.SumDecrement | src/subtype/mod.rs:223-225 | taking one visit off a state lowers the total budget by one, so the recursion ends |
| Subtyping.TargetsInRange | src/fsm.rs:124-158 | every transition of a valid FSM leads to one of its states |
| Subtyping.ReduceValid | src/subtype/mod.rs:204-206 | `reduce` leaves both buffers valid |
| Subtyping.VisitForRealizes | src/subtype/mod.rs:181 | the visit made below a pair answers every pair as the recursive specification `VisitOf` does |
| Subtyping.VisitOfOutcome | src/subtype/mod.rs:196-255 | in the recursive specification of `visit`, no visit left fails, and otherwise a failed `reduce` fails, two ending states hold exactly when both buffers are empty, an ending state against one with choices fails, a pair on the path with empty buffers holds, and any other pair with choices is decided as `Explored` says |
| Subtyping.VisitOf | src/subtype/mod.rs:196-255 | the recursive specification of `visit`; `VisitOfOutcome` states its cases: no visit left fails, a failed `reduce` fails, two ending states hold, and two states with choices hold as `explore` says |
| Subtyping.DispatchOfOutcome | src/subtype/mod.rs:208-254 | the same cases once `reduce` has succeeded |
| Subtyping.DispatchOf | src/subtype/mod.rs:208-254 | `visit` once `reduce` has succeeded; `DispatchOfOutcome` states the same cases for the reduced states |
| Subtyping.ExploreOfExplored | src/subtype/mod.rs:216-252 | exploring two states with choices gives rows of the shape the two actions' quantifiers call for, one row per transition of the outer side, and answers the outer quantifier over the inner quantifiers of the rows |
| Subtyping.ExploreOf | src/subtype/mod.rs:216-252 | exploring two states with choices; `ExploreOfExplored` states that it gives rows of the shape the two actions' quantifiers call for, one row per transition of the outer side |
| Subtyping.CheckOfOutcome | src/subtype/mod.rs:318-332 | the check from the two initial states, every state given `visits` visits, an empty history and empty buffers: no visits fails, and otherwise the outcome is that of one visit of an empty pair off the path |
| Subtyping.CheckOf | src/subtype/mod.rs:318-332 | the subtype check from the two initial states; `CheckOfOutcome` states that no visits fails and otherwise the answer is that of `visit` with every state given `visits` visits, an empty history and empty buffers |
| Subtyping.Constant | src/subtype/mod.rs:327 | `n` copies of one value, as `vec![visits; size]` makes |
| Subtyping.Kind | src/serialize/subtyping.rs:205-207 | a state ends exactly when it has no transitions, or, on serialized graphs, exactly when it is an `End` node |
| Subtyping.Visitor.constructor | src/serialize/subtyping.rs:326-332 | every state gets `visits` visits, the history is clear and both buffers are empty |
| Subtyping.Visitor.Visit | src/subtype/mod.rs:196-256 | answer, rows and buffers are exactly those of the recursive specification `VisitOf` from the visitor's state, and the history and budgets are put back; so no visit left fails, and otherwise the outcome follows `reduce` as `VisitOfOutcome` states |
| Subtyping.Visitor.ReduceAndDispatch | src/subtype/mod.rs:204-254 | exactly `VisitOf` once both states have a visit left: a failed `reduce` fails, otherwise the pair is dispatched on the reduced buffers; history and budgets are put back |
| Subtyping.Visitor.Dispatch | src/subtype/mod.rs:208-254 | exactly `DispatchOf`: two ending states are related exactly when both buffers are empty, an ending state against one with choices fails, a pair on the path with empty buffers holds, and any other pair with choices is explored |
| Subtyping.Visitor.Enter | src/subtype/mod.rs:222-225 | the pair's history bit is set and each state loses one visit |
| Subtyping.Visitor.Leave | src/subtype/mod.rs:246-249 | the history bit and the two visits are exactly as before `Enter` |
| Subtyping.Visitor.Explore | src/subtype/mod.rs:216-252 | exactly `ExploreOf`, which `ExploreOfExplored` shows to be the outer quantifier over the inner quantifiers of the rows, each row stopping at its first decisive visit; history and budgets are put back |
| Subtyping.Visitor.Try | src/subtype/mod.rs:168-181 | the result and buffers of `TryOf`: the inner buffer reverted to its snapshot and extended by one transition, and the pair of targets visited as `VisitOf` says |
| Subtyping.Visitor.Row | src/subtype/mod.rs:166-186 | exactly `RowOf`, the inner loop stopping at its first decisive result |
| Subtyping.Visitor.Unroll | src/subtype/mod.rs:142-155 | exactly `UnrollOf` from the buffers' snapshots, whose rows and answer `UnrollOfShape` describes; history and budgets are put back |
| Subtyping.Visitor.Rows | src/subtype/mod.rs:157-193 | the outer loop from given snapshots: exactly `UnrollOf` from those snapshots, with history and budgets put back and both buffers only extended past the snapshots |
| Subtyping.Visitor.Branch | src/subtype/mod.rs:157-190 | exactly `BranchOf`: the outer buffer reverted and extended by the outer transition, and the whole row of inner transitions tried |
| Subtyping.IsSubtype | src/subtype/mod.rs:318-332 | the answer and rows are those of `CheckOf` on the two FSMs; so no visits means no subtyping, two ending initial states are related, an ending initial state against one with choices is not, and two initial states with choices are decided as `Explored` says for their first transitions' actions |
| Subtyping.IsSubtypeSerialized | src/serialize/subtyping.rs:323-335 | the same over serialized graphs, whose states are told apart by node kind |
| Subtyping.RowUnderAll | src/subtype/mod.rs:166-186 | an inner `All` holds exactly when the row tried every transition and every visit in it held |
| Subtyping.RowsUnderAll | src/subtype/mod.rs:157-193 | an outer `All` holds exactly when there is a row per outer transition and every row's inner quantifier held |
| Subtyping.ExploredSendReceive | src/subtype/mod.rs:232-235 | an output state against an input state is related exactly when every left transition was tried against every right transition and every visit held |
| Subtyping.ExploredSendSend | src/subtype/mod.rs:228-231 | two output states are related exactly when every left transition was tried and some visit in its row held |
| Subtyping.ExploredReceiveReceive | src/subtype/mod.rs:240-243 | two input states are related exactly when every right transition was tried and some visit in its row held |
| Subtyping.ExploredReceiveSend | src/subtype/mod.rs:236-239 | an input state against an output state is related exactly when some visit held |
| TransitionGrammar.NextIfOf | src/fsm/dot/parse/mod.rs:144-152 | a token of the kind asked for is taken and the tried kinds are forgotten; any other token stays and the kind is added to those tried; errors are untouched |
| TransitionGrammar.ExpectNextIfOf | src/fsm/dot/parse/mod.rs:169-176 | `next_if`; on a mismatch, one error at the next token listing every kind tried with this one last, and nothing left tried |
| TransitionGrammar.FromParameter | fsm/src/dot/parse/transition.rs:201-208 | a list of the parameter's own kind that holds just that parameter |
| TransitionGrammar.PushParameterMeaning | fsm/src/dot/parse/transition.rs:214-228 | the push succeeds exactly when the kinds agree and then appends the parameter; otherwise the list is unchanged; the list's kind never changes |
| TransitionGrammar.ParameterPassOf | fsm/src/dot/parse/transition.rs:518-532 | a pass that goes on has consumed tokens and keeps the list's kind; a pass that fails has already reported its error |
| TransitionGrammar.AfterCommaOf | fsm/src/dot/parse/transition.rs:524-531 | after a `,` a pass keeps the list's kind and a failure has already been reported |
| TransitionGrammar.PushedOf | fsm/src/dot/parse/transition.rs:528-531 | a parsed parameter never stops the loop and never moves the reader; the list keeps its kind |
| TransitionGrammar.ParameterLoopOf | fsm/src/dot/parse/transition.rs:517-533 | the loop keeps the kind of the first parameter, and a failed loop has already reported its error |
| TransitionParse.PushOperator | fsm/src/dot/parse/transition.rs:303-325 | the stacks become those `PushOf` gives, or its missing-operand error is returned |
| TransitionParse.ParseUnaryOp | fsm/src/dot/parse/transition.rs:327-333 | at a `!` it is taken as negation with the token's span; at anything else nothing is taken and `!` is noted as tried |
| TransitionParse.TryKinds | fsm/src/dot/parse/transition.rs:335-377 | the next token is taken exactly when its kind is among those tried; otherwise every kind tried is noted in order |
| TransitionParse.ParseBinaryOp | fsm/src/dot/parse/transition.rs:335-377 | one of the ten operator tokens is taken as its binary operator; any other token is left and all ten kinds are noted as tried |
| TransitionParse.ParseOperand | fsm/src/dot/parse/transition.rs:389-402 | an identifier, a boolean or a number is taken as that expression; anything else is left with the three kinds noted |
| TransitionParse.ParseOperator | fsm/src/dot/parse/transition.rs:404-420 | a `!` or a binary operator token is taken as that operator; anything else is left with their kinds noted |
| TransitionParse.CloseBracket | fsm/src/dot/parse/transition.rs:428-440 | the stacks become those `CloseOf` gives, or its error is returned |
| TransitionParse.Drain | fsm/src/dot/parse/transition.rs:443-448 | every stacked operator is applied, as `DrainOf` gives, or its error is returned |
| TransitionParse.PushStage | fsm/src/dot/parse/transition.rs:404-420 | pushing an operator ends the pass as `PushOf` says, and reports its error if it has one |
| TransitionParse.CloseStage | fsm/src/dot/parse/transition.rs:427-440 | a `)` ends the pass as `CloseOf` says, and reports its error if it has one |
| TransitionParse.StepClose | fsm/src/dot/parse/transition.rs:427-440 | the last try of a pass ends it as `BracketStage` says, with the tokens and errors that stage implies |
| TransitionParse.StepBracket | fsm/src/dot/parse/transition.rs:422-440 | the bracket tries end the pass as `BracketStage` says |
| TransitionParse.StepOperator | fsm/src/dot/parse/transition.rs:404-440 | the operator and bracket tries end the pass as `OperatorStage` says |
| TransitionParse.Step | fsm/src/dot/parse/transition.rs:385-440 | one pass of the loop ends as `StageOf` says for the next token, with the tokens it consumes and the error it reports |
| TransitionParse.ParseLoop | fsm/src/dot/parse/transition.rs:384-441 | the loop ends as `LoopOf` says: the stacks and no new error at the terminal, or exactly one error pushed |
| TransitionParse.ReportUnexpected | fsm/src/dot/parse/transition.rs:456-461 | one unexpected-expression error is pushed at each output after the first |
| TransitionParse.ParseFinish | fsm/src/dot/parse/transition.rs:443-464 | after the terminal, the result is the one `FinishOf` gives, with its errors pushed |
| TransitionParse.ParseExpression | fsm/src/dot/parse/transition.rs:379-465 | the result, the tokens left and the errors pushed are exactly those of `ExpressionOf` |
| TransitionParse.ParseRefinement | fsm/src/dot/parse/transition.rs:467-487 | without refinements nothing is read; with them, a `{` starts an expression that runs to `}` (`RefinementOf`) |
| TransitionParse.ParseNamed | fsm/src/dot/parse/transition.rs:493-503 | after the `:`, a sort and its refinement, spanning from the name to the sort or refinement (`NamedOf`) |
| TransitionParse.ParseParameter | fsm/src/dot/parse/transition.rs:489-507 | a name, then after a `:` a sort and its refinement (`ParameterOf`) |
| TransitionGrammar.ParameterOf | fsm/src/dot/parse/transition.rs:489-507 | one parameter, a name and after a `:` a sort and refinement; it leaves lexable tokens, never more than it got, and nothing tried when it fails |
| TransitionParse.AfterComma | fsm/src/dot/parse/transition.rs:524-531 | after a `,`, either `)` ends the list or a parameter joins it (`AfterCommaOf`) |
| TransitionParse.PushParsed | fsm/src/dot/parse/transition.rs:528-531 | a parameter of the other kind is reported as mixed and left out (`PushedOf`) |
| TransitionParse.ParameterPass | fsm/src/dot/parse/transition.rs:518-532 | one pass of the loop, as `ParameterPassOf` says |
| TransitionParse.ParameterLoop | fsm/src/dot/parse/transition.rs:517-533 | the whole loop, as `ParameterLoopOf` says |
| TransitionParse.ParseParameters | fsm/src/dot/parse/transition.rs:509-534 | `()` gives no list; otherwise a list of the first parameter's kind, or nothing after an error (`ParametersOf`) |
| TransitionGrammar.ParametersOf | fsm/src/dot/parse/transition.rs:509-534 | the parameter list after a `(`; it leaves lexable tokens, never more than it got, and nothing tried when it fails; `ParameterLoopOf` states that the list keeps the first parameter's kind |
| TransitionParse.ParseAction | fsm/src/dot/parse/transition.rs:539-545 | `?` is an input; otherwise a `!` is expected and is an output (`ActionOf`) |
| TransitionParse.ParseMessageParameters | fsm/src/dot/parse/transition.rs:550-557 | the optional parameters in `(...)`, and whether a `[` follows them (`MessageParametersOf`) |
| TransitionParse.ParseMessage | fsm/src/dot/parse/transition.rs:547-562 | the label and everything after it (`MessageOf`) |
| TransitionParse.ParseLabelled | fsm/src/dot/parse/transition.rs:550-562 | after the label: the parameters, then the end of input is expected; the transition is given even when that expectation fails (`LabelledOf`) |
| TransitionParse.Parse | fsm/src/dot/parse/transition.rs:536-563 | the outcome, the tokens left and the errors pushed are exactly those of `TransitionOf`; a `[` after the parameters is the `unimplemented!` outcome |
| TransitionGrammar.TransitionOf | fsm/src/dot/parse/transition.rs:536-563 | a whole transition label; it leaves lexable tokens, never more than it got, and nothing tried when it returns early |
| TransitionShapes.EmptyList | fsm/src/dot/parse/transition.rs:510-512 | `()` is a list that is there but holds nothing, and nothing is reported |
| TransitionShapes.CommasLexable | fsm/src/dot/parse/transition.rs:517-533 | a run of `, name` tokens is something the lexer can produce |
| TransitionShapes.BareName | fsm/src/dot/parse/transition.rs:489-507 | a name not followed by `:` is an unnamed parameter at the name's span, and `:` is left as tried |
| TransitionShapes.FirstBare | fsm/src/dot/parse/transition.rs:514-515 | a list whose first parameter is a bare name is unnamed, and the loop reads the rest |
| TransitionShapes.AfterCommaName | fsm/src/dot/parse/transition.rs:524-531 | after a `,` a bare name is appended to an unnamed list |
| TransitionShapes.OneMore | fsm/src/dot/parse/transition.rs:518-531 | one more `, x` in an unnamed list appends `x` |
| TransitionShapes.Closing | fsm/src/dot/parse/transition.rs:518-526 | the loop ends at `)` or at `, )`, keeping the list and reporting nothing |
| TransitionShapes.LoopAgain | fsm/src/dot/parse/transition.rs:517-533 | a pass that goes on hands the rest of the tokens and the new list to the same loop |
| TransitionShapes.LoopNames | fsm/src/dot/parse/transition.rs:517-533 | the loop reads `, x , y ...` into an unnamed list, appending each name in turn |
| TransitionShapes.NameList | fsm/src/dot/parse/transition.rs:509-534 | `x, y, ... )`, with or without a trailing comma, is the unnamed list of every name in order, with nothing reported |
| TransitionShapes.NamedNoRefinement | fsm/src/dot/parse/transition.rs:489-507 | `y : s` with no `{` after it is a named parameter with no refinement, spanning the name to the sort |
| TransitionShapes.MixedList | fsm/src/dot/parse/transition.rs:514-531 | in `x, y : s )` the list takes the kind of `x`, so `y : s` is reported as mixed and left out, and the list is still given |
| TransitionShapes.MixedPass | fsm/src/dot/parse/transition.rs:518-531 | the pass over `, y : s` in an unnamed list reports the mixed parameter and keeps the list |
| TransitionShapes.MixedAfterComma | fsm/src/dot/parse/transition.rs:527-531 | a named parameter after a `,` in an unnamed list is reported at its span and the list is kept |
| TransitionShapes.Take | src/fsm/dot/parse/mod.rs:144-176 | a token of the kind asked for is taken by both `next_if` and `expect_next_if`, and the tried kinds are forgotten |
| TransitionShapes.Miss | src/fsm/dot/parse/mod.rs:144-176 | a token of another kind stays; `next_if` notes the kind, `expect_next_if` reports every kind tried at that token |
| TransitionShapes.MissFirst | src/fsm/dot/parse/mod.rs:144-176 | a first token of another kind stays pending and `next_if` only notes the kind tried |
| TransitionShapes.NoParentheses | fsm/src/dot/parse/transition.rs:550-562 | with no `(` after the label, the message has no parameters and the end of input is then expected |
| TransitionShapes.Head | fsm/src/dot/parse/transition.rs:537-548 | a role, a `?` or `!`, and a label are all taken, and parsing goes on after the label |
| TransitionShapes.Simple | fsm/src/dot/parse/transition.rs:536-563 | `role?label` and `role!label` give a transition whose message has no parameters, and nothing is reported |
| TransitionShapes.EndOfInput | src/fsm/dot/parse/mod.rs:169-176 | at the end of input the end token is there to be taken, with no error |
| TransitionShapes.Trailing | fsm/src/dot/parse/transition.rs:550-562 | after `role!label`, a stray token other than `(` yields one error expecting `(` or the end of input, and the transition is still given |
| TransitionShapes.StrayAfterLabel | fsm/src/dot/parse/transition.rs:550-562 | after the label, a token other than `(` leaves the parameters empty and is reported as unexpected |
| TransitionShapes.MissingAction | fsm/src/dot/parse/transition.rs:539-545 | `role label` gives no transition and one error at the label expecting `?` or `!` |
| TransitionShapes.RoleNoAction | fsm/src/dot/parse/transition.rs:539-545 | after an identifier role, a second identifier is taken as no action, with one error expecting `?` or `!` and nothing consumed |
| TransitionShapes.WithParameters | fsm/src/dot/parse/transition.rs:550-562 | `role!label(...)` at the end of input carries exactly the parameters the list gives, and none for `()` |
| TransitionShapes.EmptyParentheses | fsm/src/dot/parse/transition.rs:510-561 | `role!label()` is the same transition as `role!label` |
| TransitionShapes.SquareAfterParameters | fsm/src/dot/parse/transition.rs:553-556 | a `[` after the parameters is where the source stops with `unimplemented!` |

## Left out

- The async runtime, channels and macros of the session library are not modelled. They are concurrent code with no sequential core.
- The logos regular expressions of the lexers are not modelled. Every lexer reads a sequence of already classified tokens; `SpannedLexer` models the one-token look-ahead over that sequence.
- The pest grammars of the code generator, `DotGraph::read_dot`, and the label grammar are not modelled. `GenParser` and `GenTree` take statements already split into nodes and edges, with labels already split into role, direction, message and parameters. So the `unwrap` panics of those parses are not modelled either.
- The `Formula` parser of `src/predicate.rs` is not modelled, because it is a pest grammar. The predicates are modelled as values.
- File reading and writing, command-line handling and `println!`/`eprintln!` output are not modelled. Where the source prints a reason and returns `Err(())`, the model returns the error without the text.
- askama's rendering of the generated Rust file is not modelled. The model stops at the `Protocol` value the template receives, and at `TypeFormatter`'s text.
- The `heck` case conversions are parameters (`camel`, `snake`), because the crate is not part of the repository.
- In generate/src/lib.rs, edges carry a refinement predicate and side effect, and `Type::Node` carries them into the template. Those are not modelled, because the template revision (generate/src/template.rs) has no such fields. `Template.Type` follows the template's revision.
- The crepe engine's evaluation order is not modelled. `VariableLocation` defines the relations as least fixpoints, which is what the rules mean whatever the order.
- The benchmark script's bootstrap, moving averages, plots and floating-point statistics are not modelled. Only the median split and the paired differences are modelled, with values as `real` and the sort as a specification.
- The newer revision of `Normalizer` wraps messages rather than bare labels. The model numbers labels, as in src/fsm/mod.rs and src/fsm.rs.
- `TransitionParse.Parse`: refinements after a label are not implemented in the source (fsm/src/dot/parse/transition.rs:555); it panics there. The model gives an `Unimplemented` outcome.
- `Subtyping.Visitor.Unroll`: the outer prefix buffer is reverted only once per outer transition, not before each inner visit. The model keeps that behaviour as written.
- `Statistics.Differences` requires the first sample to be no longer than the second. Python would raise an index error on a shorter second sample, and that error is not modelled.
- `Refinements.Variables.SideEffect` requires that the update stays within `i32`. In a debug build the source would panic on overflow, and in a release build it would wrap; neither is modelled.
- `GenTree.TreeParse`: a graph that fails the check, or that `try_from` cannot convert, makes the source panic on an `unwrap`. The model gives the `Crashed` outcome, without the printed reason.
- `Protocol.Generate`: a role graph without nodes makes the definitions walk panic on node 0. The model gives the `Crashed` outcome.
- `Protocol.GenerateRoles` uses the corrected walk of `CachedDefinitions`; the walk as written is `Definitions.DefinitionsOf`, with its defect shown under Findings.
- `SpannedLexer.Lexer.Finish` is modelled by its precondition only, because it checks that no tried name is left and returns nothing.
- DotParse.Parse: the source adds the collected transitions by iterating a `HashSet` (src/fsm/dot.rs:374). The order of the edges, and which `UndefinedState` error comes out when several endpoints are undeclared, depend on hashing. The model adds them in insertion order, and its result fixes that one order.
- DotRoundTrip.ResolveAdds: "in order" is the model's insertion order; the source fixes the added transitions only up to reordering, for the reason above.
- DotRoundTrip.DotRoundTrip: the machine comes back with its edges in printed order. Because of the same `HashSet`, the source guarantees the round trip only up to a reordering of the edges.
- DigraphParse.ResolveOf: the newer reader also iterates a `HashSet` of transitions (fsm/src/dot/parse/fsm.rs:263). The model takes them in insertion order, so the order of the edges and of the errors pushed for undeclared states is that one order; the source fixes both only up to reordering.
- DigraphParse.Resolve: the same insertion order as `ResolveOf`, and through it the edge and error order of `ParseGraph`, `Parse` and `ParseIter.Next`.
- DigraphParse.LiteralMeaning: strings are sequences of characters, so the mask has one bit per character. The source's mask is indexed by byte (`slice.len() - 1`, fsm/src/dot/parse/fsm.rs:145); the two differ on identifiers with non-ASCII characters. The same holds for `Scan`, `ScanAt` and `Literal`.
- Statistics.Median requires a non-empty sample. The script raises `IndexError` on an empty one (overhead/eval.py:26-33; with no element, `x[mid-1]` at line 33 indexes an empty list), and that error is not modelled.
- Statistics.MedianSplits requires a non-empty sample too, for the same reason.
- VariableLocation.EdgeSends: states are numbers, so the `from_str(...).unwrap()` on a node name (dynamic_verify/src/main.rs:121-140) cannot fail in the model. The source panics on a node name that is not a number; that panic is not modelled. The same holds for `EdgeRefinements` and `Generate`.
- Machine.TransitionsFrom: its own contract only bounds the length. Which transitions it lists is stated by `Machine.TransitionsFromExact`, and the newest-first order by `Machine.AddTransitionNewest`.

## Findings

| source | as written | input that shows it | evidently intended | confidence | as-written member | corrected member |
|---|---|---|---|---|---|---|
| src/effect.rs:104 | `Div` subtracts its value from the variable | `Div<'x', 2>` on `x = 10` gives 8 | the variable divided by the value | not executed | Refinements.DivSubtracts | Refinements.ApplyDiv |
| src/fsm/dot/parse/mod.rs:72-79 | `from_tokens` reads the span before lexing the next token, so each token is paired with the span of the previous one | `a b`: the token `b` is reported at `0..1` | each token has its own span | not executed | SpannedLexer.SpansAsWrittenExample | SpannedLexer.Lexer.FromTokens |
| fsm/src/dot/parse/fsm.rs:145 | the removed mask is sized `slice.len() - 1` before the empty check | the quoted identifier `""` underflows and panics | the empty identifier is returned | not executed | DigraphParse.EmptyLiteralPanics | DigraphParse.EmptyLiteral |
| generate/src/lib.rs:180-205 | a single-edge node met again after its own visit has finished returns a reference to its named type, but that definition is only pushed at the end of the node's own visit, which is already over | the `Converging` graph: two paths meet at a node that is not on any loop | every referenced definition is generated | not executed | Definitions.ConvergingIncomplete | CachedDefinitions.CachedComplete |
