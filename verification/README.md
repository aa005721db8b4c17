# Java documentation extractor: the state machines and the structure builder

The system reads Java source text and extracts its documentation: classes with their
Javadoc, annotations, access modifier and modifiers, and the methods inside them. It works
in three stages, and each is modelled here as pure functions over immutable values:

- **The lexer** (`LexerUtil`, `LexerStates`, `LexerFmt`). A character-level state machine
  walks the text one character at a time. Each character gets the label of the state the
  machine is in right after it. A run of characters is cut off whenever the label changes,
  and once more at the end of input. The result is the lexical partition: a sequence of
  `(label, text)` tokens. Keywords are recognised by lookahead and then skipped
  character by character. Comments, annotations, generics and argument lists have their
  own states.
- **The syntactic machine** (`ParserStates`, `ParserFmt`). A second state machine reads
  the lexical tokens. It accepts declaration prefixes (Javadoc, annotations, access
  modifier, modifiers) followed by a class, interface or method head, and tracks brace
  depth inside method bodies. When a declaration reaches `DeadState`, the driver drops
  the runs back to the last delimiter and starts over from the initial state.
- **The structure builder** (`DocParser`). It scans the lexical partition without
  whitespace and initial runs. It finds `class` keywords and method heads. For each head
  it reads the declaration prefix backwards with Python's index rules, where a negative
  index wraps to the end and an index out of range reads as `None`. A stack nests
  classes and methods.
- **The file tree** (`FileTree`). Its builder turns a top-down directory listing into a
  tree of nodes. Each node keeps its `.java` files.
- **The prototype comment machine** (`CommentFsm`). An older four-state recogniser of
  line, block and documentation comments.

`Common` holds `Option`/`Result` and the Python sequence rules the source relies on:
slicing with negative bounds, and indexing where `IndexError` is caught. `Ascii` holds
the character classes.

Each operation is paired with an independent description, and a lemma connects the two:

- The lexer's partition is characterised by the state-machine trace: the text is lossless,
  every character carries the label of the state reached after it, and neighbouring
  tokens carry different labels.
- The syntactic machine accepts every class, interface and method head of its grammar.
- The backward scans of the structure builder are compared with a single "declaration
  prefix" definition.
- Worked examples follow the repository's own tests.

## Model

| member | source | states |
|---|---|---|
| Common.PySliceTo | lexer/util.py:21-22 | Python `xs[:stop]`: a prefix of `xs`, of length `min(stop, len)` for a non-negative stop, and `len + stop` (or nothing) for a negative one |
| Common.PyIndex | lexer/util.py:54-70 | Python `xs[i]` with `IndexError` caught. No ensures of its own; `Common.PyIndexResidue` states it |
| Common.PyIndexResidue | lexer/util.py:54-70 | Python `xs[i]` with `IndexError` caught (`Common.PyIndex`): `None` exactly outside `-len..len-1`, otherwise the element at `i` modulo `len`, so a negative index counts from the end |
| Common.Reverse | parser/parser.py:38 | `reversed(xs)`: same length, element `k` is element `len-1-k` of the input |
| Common.Characters | lexer/fmt.py:26 | the series the lexer records: one one-character string per character, in order |
| Common.JoinCharacters | lexer/util.py:47 | `''.join` of a recorded series of characters gives the text back |
| LexerUtil.CharEvent.Char | lexer/util.py:9-10 | `character_met` is empty exactly at end of input, otherwise the character at the index |
| LexerUtil.CharEvent.Rest | lexer/util.py:11 | the lookahead text is everything strictly after the index, and empty at or past the end |
| LexerUtil.CharEvent.Lookahead | lexer/util.py:16-19 | `lookahead(n)` has exactly `n` characters: the following text, padded with blanks past the end |
| LexerUtil.CharEvent.IsStartOf | lexer/util.py:21-22 | `is_start_of(s)`, read as `s` occurring in the text at the index (the empty string only at end of input): a match means the current character is `s[0]` |
| LexerUtil.StartOfAsWritten | lexer/util.py:21-22 | the source's test, the character met followed by the first `len(s) - 1` lookahead characters equalling `s`, holds exactly when `s` occurs in the text at the index |
| LexerUtil.StartSlice | lexer/util.py:9-22 | the character met followed by the first `n - 1` characters of the lookahead text is the text's slice of length `n` at the index |
| LexerUtil.Build | lexer/util.py:37-47 | one token per run, with the run's label and its joined characters |
| LexerUtil.BuildLossless | lexer/util.py:46-47 | building tokens loses and adds no text |
| LexerUtil.Exclude | lexer/util.py:49-52 | a token survives `exclude(*labels)` exactly when it was present and its label is not excluded |
| LexerUtil.ExcludeDistributes | lexer/util.py:49-52 | exclusion works token by token: it distributes over concatenation |
| LexerUtil.ExcludeIdempotent | lexer/util.py:49-52 | excluding twice is excluding once |
| LexerUtil.StateAt | lexer/util.py:54-58 | `state_at(i)` is `None` exactly outside `-len..len-1`; negative indices count from the end |
| LexerUtil.ValueAt | lexer/util.py:60-64 | `value_at(i)` with the same index rule |
| LexerUtil.TokenAt | lexer/util.py:66-70 | `token_at(i)` with the same index rule |
| LexerUtil.LookupsWrap | lexer/util.py:54-70 | index `i - len` reaches the same token, label and value as index `i` |
| LexerStates.FirstMatch | lexer/states.py:64-96 | the position of the first keyword of a table that starts at the event; no earlier one starts there |
| LexerStates.KeywordLengths | lexer/states.py:64-96 | every keyword is at least four characters long, so none starts within the last three characters of the text |
| LexerStates.MatchKeyword | lexer/states.py:64-96 | the chain of `is_start_of` tests, one entry after the other. No ensures of its own; `LexerStates.MatchKeywordFinds`, `LexerStates.MatchKeywordNone` and `LexerStates.MatchKeywordFirst` state what it finds |
| LexerStates.MatchKeywordFinds | lexer/states.py:64-96 | the chain finds a table entry that starts at the event, and it is the first such entry (`LexerStates.FirstMatch`); it finds nothing when no entry starts there |
| LexerStates.MatchKeywordNone | lexer/states.py:64-96 | the chain finds nothing exactly when no entry of the table starts at the event |
| LexerStates.MatchKeywordFirst | lexer/states.py:64-96 | the chain picks the first entry that starts at the event |
| LexerStates.WordOnEvent | lexer/states.py:64-103 | the word half of `InitialState.on_event`: leading keywords, then `<`, then trailing keywords, then identifier and space classes, else no move. No ensures of its own; `LexerStates.KeywordRecognised`, `LexerStates.PlainWordIsName`, `LexerStates.GenericIsModifier`, `LexerStates.WhitespaceStays` and `LexerStates.UnrecognisedStays` state its outcomes |
| LexerStates.InitialOnEvent | lexer/states.py:31-103 | `InitialState.on_event`: comment openers, delimiters, braces, parentheses and `@` are tested before the word half. No ensures of its own; `LexerStates.CommentOpeners` and `LexerStates.WordEvent` state its single-character cases |
| LexerStates.OnEvent | lexer/states.py:22-224 | `on_event` of every lexical state, one case per state class, the skip counting down and then handing on. No ensures of its own; the lemmas from `LexerStates.SkipCountsDown` to `LexerStates.UnrecognisedStays` state its cases |
| LexerStates.SkipCountsDown | lexer/states.py:212-215 | a skip with `count > 1` swallows events, counting down, and keeps its label meanwhile |
| LexerStates.SkipEnds | lexer/states.py:217-220 | at count 1 a skip becomes the wrapped state, or hands it the event when activated |
| LexerStates.SkipLabel | lexer/states.py:209 | a skip reports its `as_state` label when given, else the wrapped state's label |
| LexerStates.StartDiffers | lexer/util.py:21-22 | two words that differ at some position cannot both start at one event |
| LexerStates.KeywordsExclusive | lexer/states.py:64-96 | no two recognised keywords start at the same place, so the order of the tests only matters against other characters |
| LexerStates.KeywordLetters | lexer/states.py:64-96 | each keyword can start only at its first letter |
| LexerStates.OnlyStarterMatches | lexer/states.py:64-96 | when exactly one entry starts at the event, the chain finds that entry |
| LexerStates.LeadingRecognised | lexer/states.py:64-78 | each keyword tested before `<` is recognised where it starts, and starts at a letter |
| LexerStates.TrailingNotLeading | lexer/states.py:79-96 | where a keyword tested after `<` starts, no earlier keyword starts and the character is a letter other than `<` |
| LexerStates.TrailingRecognised | lexer/states.py:82-96 | each keyword tested after `<` is recognised where it starts |
| LexerStates.WordEvent | lexer/states.py:34-62 | past the slash, delimiter, brace, parenthesis and `@` tests, `InitialState` decides by keywords and character class |
| LexerStates.KeywordRecognised | lexer/states.py:64-96 | a keyword becomes a skip back to `InitialState` for the keyword's length, labelled with the keyword's class |
| LexerStates.NoKeywordWithoutLetter | lexer/states.py:64-96 | where no letter stands no keyword is recognised |
| LexerStates.PlainWordIsName | lexer/states.py:98-99 | an identifier character where no keyword starts begins a `NameState` |
| LexerStates.NameAbsorbs | lexer/states.py:133-138 | inside a name, identifier characters, digits and `<`/`>` keep `NameState`, so keywords inside names are not cut out |
| LexerStates.CommentOpeners | lexer/states.py:34-43 | `/**` opens a two-step Javadoc skip, `/*` a block-comment skip, `//` a line-comment skip; any other slash leaves `InitialState` |
| LexerStates.CommentCloseLabelled | lexer/states.py:115-130 | the closing `*` and `/` of a block or Javadoc comment keep the comment's label, and the next character is read from `InitialState` |
| LexerStates.GenericIsModifier | lexer/states.py:149-163 | `<` opens a generic run labelled `ModifierState`, and its closing `>` keeps that label |
| LexerStates.AnnotationParensLabelled | lexer/states.py:190-200 | every character inside an annotation's parentheses, the `)` included, is labelled `AnnotationState` |
| LexerStates.WhitespaceStays | lexer/states.py:22-28 | whitespace keeps `WhitespaceState`, and `InitialState` turns to it on whitespace |
| LexerStates.UnrecognisedStays | lexer/states.py:31-103 | a character that passes none of `InitialState`'s tests (no comment opener, delimiter, bracket, parenthesis, `@`, `<`, identifier character or space), or the end of input, leaves `InitialState` where it is |
| LexerFmt.Step | lexer/fmt.py:18-26 | a step moves to `on_event`'s state and records the character met; it flushes the run in progress, under the previous label, exactly on end of input or a change of label; earlier runs stay |
| LexerFmt.Process | lexer/fmt.py:18-26 | the machine after feeding events one `step` at a time. No ensures of its own; `LexerFmt.ProcessFollowsFeed`, `LexerFmt.ProcessRecords`, `LexerFmt.ProcessLabels` and `LexerFmt.ProcessCut` state what it keeps |
| LexerFmt.ProcessString | lexer/fmt.py:12-16 | `process_string`: the machine fed the events of `LexerFmt.Events`. No ensures of its own; `LexerFmt.ProcessPrefixStep` states its step-by-step progress |
| LexerFmt.Partition | lexer/fmt.py:28-30 | the runs a fresh machine leaves after `process_string(s)`. No ensures of its own; `LexerFmt.PartitionLossless`, `LexerFmt.PartitionLabels` and `LexerFmt.PartitionShape` characterise it |
| LexerFmt.Lex | lexer/fmt.py:12-30 | the partition joined into tokens. No ensures of its own; `LexerFmt.LexCharacterised` characterises it |
| LexerFmt.Events | lexer/fmt.py:12-16 | `process_string` feeds one event per character in order, then one end-of-input event when `end` is set |
| LexerFmt.StepCases | lexer/fmt.py:22-26 | a flushing step starts a new series with the character met; a non-flushing step extends the series |
| LexerFmt.FlushStep | lexer/fmt.py:22-26 | the flushing case: the run in progress is appended under the previous label |
| LexerFmt.KeepStep | lexer/fmt.py:22-26 | the non-flushing case: the partition is unchanged and the series grows |
| LexerFmt.ProcessFollowsFeed | lexer/fmt.py:18-20 | the machine's state after the events is the transition folded over them |
| LexerFmt.ProcessRecords | lexer/fmt.py:18-26 | the machine records exactly the text its events meet |
| LexerFmt.LabelsStep | lexer/fmt.py:18-26 | one character step adds the new state's label for the character met |
| LexerFmt.ProcessLabels | lexer/fmt.py:18-26 | fed only characters, the recorded labels equal the state-machine trace, one per character |
| LexerFmt.ProcessFlow | lexer/fmt.py:18-26 | fed only characters, a run is in progress exactly when some event was fed, and the last flushed run's label differs from the current one |
| LexerFmt.ProcessSingles | lexer/fmt.py:18-26 | fed only characters, every recorded entry is a single character |
| LexerFmt.ProcessCut | lexer/fmt.py:18-26 | fed only characters, neighbouring runs differ in label and only a leading `InitialState` run may be empty |
| LexerFmt.ProcessChain | lexer/fmt.py:12-16 | a run of the machine equals the chain of its single steps |
| LexerFmt.ProcessPrefixStep | lexer/fmt.py:12-16 | each event of `process_string` advances the machine by one step |
| LexerFmt.FinalFlush | lexer/fmt.py:15-16 | the end-of-input event flushes the last run unconditionally |
| LexerFmt.PartitionLossless | lexer/fmt.py:12-30 | the partition's runs spell out exactly the input text |
| LexerFmt.PartitionLabels | lexer/fmt.py:12-30 | the partition labels every character as the state reached after it |
| LexerFmt.PartitionShape | lexer/fmt.py:12-30 | neighbouring runs differ in label, and every run records single characters |
| LexerFmt.BuildLabels | lexer/util.py:46-47 | the labels of the built tokens, one per character, are the runs' labels |
| LexerFmt.LexCharacterised | lexer/fmt.py:12-30 | the lexical partition is lossless and labels each character as the state trace does. Neighbouring tokens differ in label. Only a first `InitialState` token may be empty |
| LexerExamples.BracketOpens | lexer/states.py:54-55 | on `}}`, the first `}` turns `InitialState` into a one-step skip labelled `ClosedBracketState`, flushing the empty initial run |
| LexerExamples.BracketRepeats | lexer/states.py:217-218 | the second `}` is handed through the skip to `InitialState` and opens another `ClosedBracketState` skip |
| LexerExamples.BracketEnd | lexer/fmt.py:22-24 | the end of input flushes the `}}` run |
| LexerExamples.BracketPartition | lexer/fmt.py:12-16 | `process_string("}}")` passes through exactly these machines |
| LexerExamples.ClosingBracketsMerge | fmt/test_fmt.py:73-84 | `}}` lexes to one `ClosedBracketState` token `}}`: the lexer driver ignores `separated` |
| LexerExamples.ClassesKeyword | lexer/states.py:64-65 | at the `c` of `classes` the keyword `class` is recognised |
| LexerExamples.SkipStep | lexer/states.py:212-215 | a keyword skip with more than one step left swallows a character and keeps its label |
| LexerExamples.ClassesSkip | lexer/states.py:212-215 | the `lass` of `classes` is swallowed by the keyword skip |
| LexerExamples.ClassesTailIsName | lexer/states.py:98-99 | the `e` after the keyword starts a name, since no keyword starts there |
| LexerExamples.ClassesNameStarts | lexer/fmt.py:22-26 | the keyword run `class` is flushed when the name starts |
| LexerExamples.ClassesNameGoesOn | lexer/states.py:136-138 | `s` continues the name |
| LexerExamples.ClassesEnd | lexer/fmt.py:15-16 | the end of input flushes the name `es` |
| LexerExamples.ClassesPartition | lexer/fmt.py:12-16 | `process_string("classes")` passes through exactly these machines |
| LexerExamples.KeywordCutFromWord | fmt/test_fmt.py:61-71 | `classes` lexes to the keyword `class` and the name `es` |
| ParserStates.TokenEvent.Lookahead | parser/fmt.py:72-73 | `lookahead(n)` is the first `min(n, len)` following tokens and never fails |
| ParserStates.TokenEvent.NextLabel | parser/states.py:113 | `lookahead(1)[0].state` fails with an empty lookahead exactly when no token follows, otherwise it is the next token's label |
| ParserStates.InitialOnEvent | parser/states.py:7-30 | `ParserInitialState.on_event`. No ensures of its own; `ParserStates.InitialMovesOn` states its outcomes |
| ParserStates.OnEvent | parser/states.py:7-252 | `on_event` of every syntactic state. No ensures of its own; `ParserStates.LiveTransitions` states where it fails, and the lemmas from `ParserStates.PrefixChainForward` to `ParserStates.FirstBodyTokenUncounted` state its cases |
| ParserStates.LiveTransitions | parser/states.py:101-207 | from a live state the only failure is an empty lookahead where `extends`, `implements` or `,` needs the next token; a successful move leads to a live state exactly when it is not `DeadState` |
| ParserStates.LiveFromInitial | parser/states.py:7-98 | the same three facts for the initial, prefix and brace states, which never fail |
| ParserStates.LiveInClassHeader | parser/states.py:101-143 | the same three facts for the class header states |
| ParserStates.LiveInInterfaceHeader | parser/states.py:179-207 | the same three facts for the interface header states |
| ParserStates.LiveInMethod | parser/states.py:152-233 | the same three facts for the method head and body states |
| ParserStates.SkipPasses | lexer/states.py:212-220 | a quiet skip with one event left moves to its next state whatever the token |
| ParserStates.SkipCounts | lexer/states.py:212-215 | a skip with more than one event left counts down and keeps its next state, activation and label |
| ParserStates.PretendShows | lexer/states.py:209 | the one-token skip back to the initial state reports the label it was made with |
| ParserStates.PrefixRank | parser/states.py:7-98 | the rank is defined exactly on the initial state and the four declaration-prefix states |
| ParserStates.PrefixChainForward | parser/states.py:7-98 | prefix tokens are accepted only in the order Javadoc, annotations, access modifier, modifiers; annotations and modifiers may repeat; anything else dies |
| ParserStates.PrefixThenHead | parser/states.py:37-98 | after a non-empty prefix, a non-prefix token is read as from the initial state, except that a brace or anything the initial state rejects dies |
| ParserStates.InitialMovesOn | parser/states.py:7-34 | the initial state always leaves itself, and dies exactly on tokens that open neither a prefix, a head nor a brace |
| ParserStates.BracketsActAsInitial | parser/states.py:146-247 | the bracket states, the class's `{` and the skips after `;` and an interface's `{` all read the next token as the initial state does; only the two bracket states are separated |
| ParserStates.FeedSplit | parser/fmt.py:21-25 | feeding a stretch of tokens is feeding its two halves in turn, and a failure in the first half ends it |
| ParserStates.ListStep | parser/states.py:135-143 | a `, Name` pair leaves an implements or extends list where it was |
| ParserStates.FeedPastName | parser/states.py:113-143 | a move into a quiet one-token skip, as after `extends`, `implements` or `,` followed by a name, passes over that name |
| ParserStates.ListCloses | parser/states.py:135-143 | a list ends on `{` |
| ParserStates.ListThenBrace | parser/states.py:135-143 | any number of `, Name` pairs and then `{` closes the list |
| ParserStates.ExtendsCoversTwo | parser/states.py:109-132 | `extends Name` is read as two `ClassExtendsState` tokens, after which the class reads like `ClassImplementsState` |
| ParserStates.ClassOpens | parser/states.py:109-132 | `{` after a class's name or its extended class opens the class body |
| ParserStates.ImplementsStep | parser/states.py:109-139 | `implements Name` moves a class header into its implements list |
| ParserStates.ImplementsOpensList | parser/states.py:109-132 | `implements` followed by a name, after the class's name or its extended class, enters the implements list past the name |
| ParserStates.ExtendsStep | parser/states.py:109-124 | `extends Name` after a class's name leaves the class waiting for `implements` or `{`, reporting both tokens as `ClassExtendsState` |
| ParserStates.ClassImplementsTail | parser/states.py:124-143 | `implements I0, ..., Ik {` is read through to the class's `{` |
| ParserStates.ClassTail | parser/states.py:124-143 | an optional implements list and the `{` are read through to the class's `{` |
| ParserStates.ClassExtendsTail | parser/states.py:109-143 | `extends E` and then the rest of a class header is read through to its `{` |
| ParserStates.ClassKeywordAndName | parser/states.py:7-109 | `class Name` is accepted from the initial state or after any declaration prefix |
| ParserStates.PrefixMeetsKeyword | parser/states.py:7-98 | the initial state and every declaration prefix state move to `ClassState` on `class` and to `InterfaceState` on `interface` |
| ParserStates.KeywordListAt | parser/states.py:124-143 | where the keyword, the first name and the `, Name` pairs of an implements or extends list closed by `{` sit in a token sequence |
| ParserStates.ClassHeaderAccepted | parser/states.py:7-149 | every class header `class N [extends E] [implements I0 (, Ik)*] {` is accepted from the start or after a prefix, ending in `ClassOpenBracketState` |
| ParserStates.InterfaceExtendsStep | parser/states.py:187-203 | `extends Name` moves an interface header into its extends list |
| ParserStates.InterfaceOpens | parser/states.py:187-196 | `{` right after the interface's name ends the header |
| ParserStates.InterfaceExtendsTail | parser/states.py:187-207 | `extends E0, ..., Ek {` after an interface's name is read through to its `{` |
| ParserStates.InterfaceTail | parser/states.py:187-207 | an optional extends list and the `{` are read through to the interface's `{` |
| ParserStates.InterfaceKeywordAndName | parser/states.py:7-187 | `interface Name` is accepted from the initial state or after any declaration prefix |
| ParserStates.InterfaceRead | parser/states.py:179-207 | tokens laid out as an interface header are read through to its `{` |
| ParserStates.InterfaceHeaderAccepted | parser/states.py:179-207 | every interface header `interface N [extends E0 (, Ek)*] {` is accepted, ending in a state labelled `InterfaceOpenBracketState` |
| ParserStates.MethodHeaderAccepted | parser/states.py:152-168 | `ReturnType Name (args)` is accepted from the start or after a prefix |
| ParserStates.MethodHeadEnds | parser/states.py:168-176 | after a method head, `;` ends an interface method, `{` opens a body, and anything else dies |
| ParserStates.KeywordNeedsName | parser/states.py:101-106 | `class` and `interface` lead to their name states exactly on a name token, and die on anything else (also parser/states.py:179-184) |
| ParserStates.ClassNameMoves | parser/states.py:109-121 | after a class's name: `extends` or `implements` followed by a name, or `{`, move on; the keyword with no token after it raises; every other token dies |
| ParserStates.ClassImplementsMoves | parser/states.py:124-132 | after `extends E`: `implements` followed by a name, or `{`, move on; `implements` with nothing after it raises; every other token dies |
| ParserStates.ClassImplementsListMoves | parser/states.py:135-143 | inside an implements list: `,` followed by a name, or `{`, move on; a final `,` raises; every other token dies |
| ParserStates.InterfaceNameMoves | parser/states.py:187-196 | after an interface's name: `extends` followed by a name, or `{`, move on; `extends` with nothing after it raises; every other token, `implements` included, dies |
| ParserStates.InterfaceExtendsListMoves | parser/states.py:199-207 | inside an interface's extends list: `,` followed by a name, or `{`, move on; a final `,` raises; every other token dies |
| ParserStates.BodyStep | parser/states.py:224-233 | inside a body, `{` deepens and `}` with open braces pops one |
| ParserStates.BodyDepth | parser/states.py:217-233 | while the running depth never goes negative, a body's depth is the number of `{` over `}` read so far |
| ParserStates.BodyCloses | parser/states.py:224-233 | the first `}` that finds no open brace ends the body in `ClosedBracketState` |
| ParserStates.FirstBodyTokenUncounted | parser/states.py:210-214 | the token right after a method's `{` opens the body at depth 0, even when it is `{` itself; a `}` there closes the method |
| ParserFmt.OnEventSound | parser/fmt.py:25-33 | the driver never asks `DeadState` for a move: from a live state the only failure is an empty lookahead |
| ParserFmt.Step | parser/fmt.py:40-47 | a step fails exactly when the transition fails, moves to the transition's state, and appends the token to what the machine holds; the first run stays |
| ParserFmt.StepFlushRule | parser/fmt.py:44-47 | the run in progress is flushed under the previous label exactly when the new state is separated or changes label |
| ParserFmt.RemoveUntilDelimiter | parser/fmt.py:53-59 | drops exactly the trailing runs that neither are empty nor open with a brace or delimiter |
| ParserFmt.Resync | parser/fmt.py:31-33 | after a dead declaration the machine is back in the initial state with an empty series, and an anchored first run survives |
| ParserFmt.Loop | parser/fmt.py:17-38 | the loop fails only on an empty lookahead. It feeds every remaining token at least once and at most twice. It resynchronises at most once per feed and keeps the opening run |
| ParserFmt.LoopRound | parser/fmt.py:21-37 | one round: a failure ends the loop; a dead state resynchronises and re-feeds the token unless the previous state was initial; otherwise the loop moves to the next token |
| ParserFmt.LoopLossless | parser/fmt.py:17-38 | when no declaration dies, every token is fed exactly once and the final partition holds exactly the tokens, in order |
| ParserFmt.ProcessTokens | parser/fmt.py:17-38 | `process_tokens` fails only on an empty lookahead and feeds between `n` and `2n` times; without resynchronisation the partition is the token sequence, cut into runs |
| ParserFmt.ProcessOpens | parser/fmt.py:17-45 | the syntactic partition always opens with the empty initial run |
| ParserFmt.DocOpens | parser/states.py:11-12 | a first Javadoc opens a declaration with docs |
| ParserFmt.SecondDocDies | parser/states.py:37-52 | a second Javadoc kills that declaration |
| ParserFmt.DocsDropped | parser/fmt.py:53-59 | resynchronisation drops the dead run and the docs run before it, keeping the opening run |
| ParserFmt.DocReopens | parser/fmt.py:27-33 | fed again from the initial state, the second Javadoc opens a fresh declaration with docs |
| ParserFmt.TwoDocsFirst | parser/fmt.py:21-35 | `process_tokens` on two Javadocs first reaches a declaration with docs |
| ParserFmt.TwoDocsSecond | parser/fmt.py:27-33 | the second Javadoc dies and resynchronises without advancing |
| ParserFmt.TwoDocsThird | parser/fmt.py:21-35 | the re-fed Javadoc opens a declaration with docs holding only the second comment |
| ParserFmt.TwoDocs | tests/test_parser_fmt.py:28-46 | two Javadocs in a row: only the second is kept for the declaration, as the test with `doc1`/`doc2` expects |
| DocParser.IsClassAt | parser/parser.py:122-125 | a class head is exactly the identifier `class` at that index |
| DocParser.IsMethodAt | parser/parser.py:83-88 | a method head is exactly name, name, argument list, `{` at four consecutive indices |
| DocParser.Wrap | lexer/util.py:54-58 | the doubled partition: position `q` holds the token Python index `q - len` reaches |
| DocParser.StateAtIsWrapped | lexer/util.py:54-58 | `state_at(i) == kind` on the partition is the same test at position `i + len` of the doubled copy |
| DocParser.RunStart | parser/parser.py:140-143 | a backward `while state_at(i) == kind: i -= 1` stops at a position before which no `kind` token stands |
| DocParser.RunShape | parser/parser.py:140-143 | every position the backward loop passed holds a `kind` token |
| DocParser.PrefixBefore | parser/parser.py:137-158 | the declaration prefix in front of a head: docs, annotations, access modifier and modifiers start in that order, with at most one Javadoc and one access modifier |
| DocParser.PrefixShape | parser/parser.py:137-158 | the prefix found is maximal: modifiers, then at most one access modifier, then annotations, then at most one Javadoc, each part as long as the tokens allow |
| DocParser.PrefixScans | parser/parser.py:137-158 | the prefix is found by one backward scan per part, each starting where the previous one stopped |
| DocParser.UpToBrace | parser/parser.py:129-135 | the forward scan of `_detect_class`: the tokens after the keyword up to, not including, the first `{` or the end |
| DocParser.ModifiersStop | parser/parser.py:140-143 | the backward modifier scan never passes a head whose own token is not a modifier |
| DocParser.DetectClass | parser/parser.py:127-160 | a class head holds exactly the declaration prefix before the keyword and the tokens after it up to `{` |
| DocParser.ClassScan | parser/parser.py:137-158 | the index bookkeeping of `_detect_class` yields ordered part boundaries before the head |
| DocParser.ClassPrefix | parser/parser.py:137-158 | the tokens `_detect_class` collects before the keyword are the declaration prefix |
| DocParser.ClassScanAgrees | parser/parser.py:137-158 | `_detect_class`'s index bookkeeping scans back exactly as far as the prefix chain allows |
| DocParser.AnnotationsThenDocs | parser/parser.py:109-118 | the annotation loop and Javadoc check of `_detect_method` read the annotation run two places behind the index, then the Javadoc just before it |
| DocParser.MethodScanFixed | parser/parser.py:98-118 | the index bookkeeping of `_detect_method` with the compensating step yields ordered part boundaries |
| DocParser.MethodScanAgrees | parser/parser.py:98-118 | with the compensating step, `_detect_method` scans back exactly as far as the prefix chain allows |
| DocParser.MethodPrefixAsWritten | parser/parser.py:98-118 | the backward half of `_detect_method` as written, without the compensating step. No ensures of its own; `DocParser.AsWrittenPartsAgree` states which parts it reads right, and `DocParser.AnnotationLost` and `DocParser.DocsLost` show the parts it misreads |
| DocParser.AsWrittenPartsAgree | parser/parser.py:98-113 | `_detect_method` as written reads the modifiers and access modifier correctly, and the whole prefix correctly when an access modifier is present |
| DocParser.MethodPrefixFixed | parser/parser.py:98-118 | the corrected backward half of `_detect_method` reports the declaration prefix's parts |
| DocParser.DetectMethodAsWritten | parser/parser.py:90-120 | the method record takes its return type, name and arguments from the three head tokens |
| DocParser.AsWrittenAgrees | parser/parser.py:98-107 | as written, the method's modifiers and access modifier match the declaration prefix |
| DocParser.AsWrittenAgreesWithAccess | parser/parser.py:104-118 | as written, with an access modifier present, the whole method record is right |
| DocParser.DetectMethod | parser/parser.py:90-120 | the corrected method record is the head plus the declaration prefix's docs, annotations, access modifier (or `package-private`) and modifiers |
| DocParser.OpenClass | parser/parser.py:56-64 | a class head is appended to the flat list, to the inner classes of the class on top, and pushed; inside a method it is an error |
| DocParser.OpenMethod | parser/parser.py:66-73 | a method head is appended to the methods of the class on top and pushed; with nothing open it is the "not in the class" error, and with a method on top it is `MemberOfMethod` |
| DocParser.Close | parser/parser.py:75-79 | a `}` pops the top entry, and an empty stack is left as it is |
| DocParser.Classify | parser/parser.py:55-75 | the loop tests a class head first, then a method head, then a closing brace; the method record is the corrected one (see Left out) |
| DocParser.Events | parser/parser.py:55-79 | one event per token |
| DocParser.ClassifyAsWritten | parser/parser.py:55-75 | No ensures of its own; `DocParser.ClassifyAgrees` states it |
| DocParser.EventsAsWritten | parser/parser.py:55-79 | one event per token, read as the loop is written |
| DocParser.ClassifyAgrees | parser/parser.py:56-75 | the loop as written sees the same event as the corrected loop at every token, except in a method record. There the head, the modifiers and the access modifier still agree, and with an access modifier present the whole record does |
| DocParser.Visit | parser/parser.py:55-79 | one loop iteration: only heads can fail; a class head adds a class; heads push and `}` pops; other tokens change nothing; earlier class heads stay |
| DocParser.Fold | parser/parser.py:55-79 | the loop keeps the class list and stack consistent |
| DocParser.FoldCollectsClasses | parser/parser.py:52-81 | the flat class list holds one record per class head, in order |
| DocParser.FoldMethodsMet | parser/parser.py:66-73 | every method a class record lists was met at a method head after that class's head |
| DocParser.MethodJustMet | parser/parser.py:66-73 | a method entry the last iteration changed is that iteration's method head, met after its class's head |
| DocParser.TopsAlike | parser/parser.py:61-72 | states alike have tops alike: both empty, both a method, or the same class |
| DocParser.OpenClassShapes | parser/parser.py:56-64 | a class head opened in states alike raises alike or leaves states alike |
| DocParser.OpenMethodShapes | parser/parser.py:66-73 | method heads with alike records opened in states alike raise alike or leave states alike |
| DocParser.VisitShapes | parser/parser.py:55-79 | one iteration on events alike, from states alike, raises alike or leaves states alike |
| DocParser.FoldShapes | parser/parser.py:55-79 | the loop over events alike raises the same error, or collects the same classes and nesting, and methods that differ only in Javadoc and annotations |
| DocParser.AbortSticks | parser/parser.py:69-70 | once the loop has raised, the result stays that error |
| DocParser.NothingOpenBeforeClass | parser/parser.py:55-73 | before the first class head the loop either has nothing or has raised at the first method head |
| DocParser.Scanned | parser/parser.py:47-50 | the scanned tokens carry neither whitespace nor initial labels |
| DocParser.Parse | parser/parser.py:46-81 | the result of the loop is consistent. Its flat class list holds exactly the `_detect_class` record of each `class` keyword, in source order, and every method a class lists is the record of a method head met after that class's keyword |
| DocParser.MethodEventDetected | parser/parser.py:66-67 | at a method head that is not a class head the event carries the record `DocParser.DetectMethod` reads there |
| DocParser.ParseAsWritten | parser/parser.py:46-81 | the loop as written, with `_detect_method` as line 67 calls it: consistent, and every method a class lists is the record of a method head met after that class's keyword |
| DocParser.AsWrittenEventDetected | parser/parser.py:66-67 | at a method head that is not a class head the loop as written sees the record `_detect_method` as written reads there |
| DocParser.EventsEqualWithAccess | parser/parser.py:55-75 | with an access modifier before every method head, the loop as written sees exactly the corrected loop's events |
| DocParser.ParsesAgree | parser/parser.py:46-120 | the parse as written and the corrected parse raise the same error, or collect the same classes and nesting, and methods that differ only in Javadoc and annotations; they are equal when every method head has an access modifier |
| DocParser.EventsBeforeClass | parser/parser.py:55-70 | a method head with no class keyword before it is seen as a method head after no class heads |
| DocParser.MethodBeforeClassAborts | parser/parser.py:66-70 | a method head before any class raises "not in the class" at or before it |
| DocParser.HeadFromTokens | parser/parser.py:127-160 | every token of a class head is a token of the scanned partition |
| DocParser.UpToBraceIn | parser/parser.py:129-135 | every token the forward scan collects is a token of the partition |
| DocParser.ParseDocs | parser/parser.py:45-81 | `parse_docs` returns one record per `class` keyword, and none of their tokens is whitespace or initial; every method a class lists is the record of a method head after its keyword |
| DocParser.HeadsFromScanned | parser/parser.py:127-160 | the heads at any `class` keywords hold only tokens of the partition |
| DocParser.AnnotationLost | parser/parser.py:109-113 | on `@A @B void f() {`, `_detect_method` as written reports only `@A`, the corrected one `@A`, `@B` |
| DocParser.DocsLost | parser/parser.py:104-118 | on `/** d */ static void f() {`, `_detect_method` as written loses the Javadoc, the corrected one keeps it |
| DocParser.AnnotatedAsWritten | parser/parser.py:109-113 | the as-written half of `DocParser.AnnotationLost` |
| DocParser.AnnotatedFixed | parser/parser.py:137-158 | the corrected half of `DocParser.AnnotationLost`, read as `_detect_class` reads a prefix |
| DocParser.DocumentedAsWritten | parser/parser.py:104-118 | the as-written half of `DocParser.DocsLost` |
| DocParser.DocumentedFixed | parser/parser.py:137-158 | the corrected half of `DocParser.DocsLost`, read as `_detect_class` reads a prefix |
| FileTree.Extension | parser/parser.py:35 | the extension is the suffix from the last `.`, with no other `.` in it, or empty when there is no `.` |
| FileTree.ExtensionIsLastDotted | parser/parser.py:35 | any stem followed by a dotted suffix free of further dots has that suffix as its extension |
| FileTree.PathJoin | parser/parser.py:36 | `os.path.join`: an absolute name replaces the root, otherwise the result starts with the root and ends with the name |
| FileTree.SourcePaths | parser/parser.py:35-36 | no more paths than file names |
| FileTree.SourcePathsMembers | parser/parser.py:35-36 | a path is among a node's files exactly when it joins the root with a listed `.java` file name |
| FileTree.Visit | parser/parser.py:32-41 | one round pops the top node, gives it the entry's source files and one child per sub-directory, and pushes the children in reverse; an empty stack is an error |
| FileTree.FirstListedOnTop | parser/parser.py:38-41 | after a round, the first listed sub-directory is on top of the stack |
| FileTree.Walk | parser/parser.py:25-43 | the loop keeps every entry recorded at the node it was given, with the root first |
| FileTree.VisitKeepsShape | parser/parser.py:32-41 | one round keeps the stack and node bookkeeping consistent and the root's name |
| FileTree.VisitRecordsEntry | parser/parser.py:33-36 | one round records its entry's source files at the node it popped |
| FileTree.VisitKeepsRecorded | parser/parser.py:32-41 | one round keeps every earlier entry recorded and adds its own |
| FileTree.GenerateTree | parser/parser.py:24-43 | an empty listing is an error; otherwise the root node comes first, is named after the first entry and is that entry's node, and each entry was given its own node, which holds the entry's `.java` paths and one child named after each sub-directory |
| FileTree.FirstListedNext | parser/parser.py:32-41 | after an entry with sub-directories, the next entry is given the node of its first listed sub-directory, which matches a top-down walk |
| CommentFsm.OnEvent | fmt/states.py:25-78 | each state's move: `/` with `*` or `/` ahead opens a skip into a comment; a line comment ends at a line feed; a block comment turns Javadoc at `*` or ends at `*/`; a Javadoc ends only at `*/`; a skip counts down |
| CommentFsm.Steps | fmt/fmt.py:9-10 | the run of `on_event` over events: one state per event, the first from the starting state |
| CommentFsm.StepsFollowOnEvent | fmt/fmt.py:9-10 | each state of a run is the previous state's answer to the next event |
| CommentFsm.Zip | fmt/test_finiteStateMachine.py:17-18 | `zip_longest(text, text[1:])`: each event meets its character and sees the next one, the last seeing nothing |
| CommentFsm.ZipAgreesWithCharEvent | fmt/util.py:4-17 | a zipped event carries the same character and one-character lookahead as the character event at that index |
| CommentFsm.LookaheadOfRest | fmt/util.py:14-17 | asking for as many lookahead characters as remain gives exactly the rest of the text |
| CommentFsm.StartOfAgreesWithLookahead | fmt/util.py:19-20 | `is_start_of(s)` agrees with the character met followed by the padded lookahead, wherever `s` fits in the text |
| CommentFsm.InitialWithoutSlash | fmt/states.py:25-34 | events that never meet `/` keep the machine in its initial state |
| CommentFsm.NoSlashStaysInitial | fmt/test_finiteStateMachine.py:13-20 | a text without `/`, zipped with its tail, leaves the machine initial after every character |
| CommentFsm.CommentWithoutNewline | fmt/states.py:37-43 | a line comment lasts until a line feed |
| CommentFsm.MultilineWithoutStar | fmt/states.py:46-55 | a block comment lasts until a `*` |
| CommentFsm.JavadocUntilClose | fmt/states.py:58-64 | a Javadoc lasts until `*` followed by `/` |
| CommentFsm.SkipCountdown | fmt/states.py:67-78 | a skip of count `n` holds for `n` events, counting down, and then becomes its next state |
| CommentFsm.StepsAppend | fmt/fmt.py:9-10 | feeding two event sequences in turn is feeding the first and continuing from where it ended |
| CommentFsm.SampleStretches | fmt/states.py:25-64 | what each stretch of the test's sample does: the opening `/*`, the body, the `*/`, the line feed and `//`, the line comment |
| CommentFsm.SampleSteps | fmt/test_finiteStateMachine.py:22-39 | the machine's states over the test's sample `/*xxx*/\n///*yyy*/` |
| CommentFsm.SampleMultilineOnlyOnX | fmt/test_finiteStateMachine.py:35-39 | on the sample, staying in the block-comment state happens only on `x`, and every `x` is read in that state, as the test asserts |

## Left out

- `DocumentedClass.from_tokens`, `DocumentedMethod.parse_method_args` and the `DocumentedClass`/`DocumentedMethod` classes are not part of this model. A class record keeps the raw token lists handed to `from_tokens`. A method record keeps the argument text.
- `DocumentedMethod` has no member lists in any source shown. A class head or a method head met while a method is on top of the stack becomes the error `MemberOfMethod`, and the whole parse stops there. The source would fail there with an attribute error. Because `new` is not a keyword of the lexer, a method body holding an anonymous class (`return new Foo() {`) already shows such a method head, so one such line ends the parse.
- `Helpers.get_file_extension` is not part of this model. `FileTree.Extension` takes the suffix from the last `.`, as `os.path.splitext` does for names that do not start with a dot.
- `os.walk` and the file system are left out. `_list_files_hierarchy` is replaced by the listing given as a parameter to `GenerateTree`.
- Printing, `pprint` and `__repr__` are left out. The "unexpected closing bracket" message becomes a no-op pop.
- Nodes and records are immutable values. A node is referred to by its position in a node list, and a class by its position in the flat class list, so shared mutation needs no object identity.
- The character classes `isidentifier`, `isalpha`, `isnumeric` and `isspace` are ASCII stand-ins; Unicode letters and digits are not modelled.
- `parser/parser.py` imports the prototype machine in `fmt/`, but calls `process_string`, `partition` and `exclude`, which only the lexer in `lexer/` has. `DocParser.Scanned` therefore runs the lexer stage. The prototype is modelled on its own as `CommentFsm`.
- `fmt/util.py`'s `CharacterEvent` is the same code as `lexer/util.py`'s, and both are modelled by `LexerUtil.CharEvent`. The prototype's tests build `Event`s from `zip_longest` instead (`CommentFsm.Zip`).
- `DeadState.on_event` returns `None`, which would fail at the next attribute access. It becomes the fault `NoNextState`, and `ParserFmt.OnEventSound` shows the driver never reaches it.
- `lookahead(1)[0]` with no following token raises `IndexError`. It becomes the fault `EmptyLookahead`, which `ParserFmt.ProcessTokens` propagates.
- The syntactic partition is not consumed by `parse_docs`, which works on the lexical partition. The two are connected only through the shared token type.
- The repository's tree test expects children `[c, d]`, but the code appends them in reverse listing order, `[d, c]`. The model follows the code, and `FileTree.FirstListedNext` states what the reversal is for.
- `SkipState.on_event` mutates its own count. Each count is modelled as a new state value, which behaves identically because the driver keeps only the returned state.
- FileTree.SourcePaths: its own contract bounds only the length; the exact membership is stated in `FileTree.SourcePathsMembers`.
- DocParser.DetectMethodAsWritten: its own contract states only the head fields. Its prefix fields are compared with the declaration prefix by `DocParser.AsWrittenAgrees` and `DocParser.AsWrittenAgreesWithAccess`, and `DocParser.AnnotationLost` and `DocParser.DocsLost` show where they differ.
- DocParser.Fold: its own contract states only consistency; what it collects is stated by `DocParser.FoldCollectsClasses`.
- DocParser.Classify: its method events carry the corrected record `DocParser.DetectMethod`, not the record `_detect_method` gives where parser/parser.py:67 calls it, so `DocParser.Events`, `DocParser.Fold`, `DocParser.Parse` and `DocParser.ParseDocs` describe the corrected program. The program as written is `DocParser.ClassifyAsWritten` and `DocParser.ParseAsWritten`. `DocParser.ParsesAgree` and `DocParser.ClassifyAgrees` state that the two differ only in the annotations and Javadoc of methods without an access modifier.
- DocParser.ParseDocs: for the whole result the contracts state the class count and token origin, that each listed method is the record of a method head after its class's keyword, the class heads (in `DocParser.Parse`) and, through `DocParser.WellFormed`, that inner classes are classes met later. Which class a method or an inner class is attached to is stated only step by step, by `DocParser.OpenClass`, `DocParser.OpenMethod` and `DocParser.Visit`.

## Findings

| source | as written | input that shows it | evidently intended | confidence | as-written member | corrected member |
|---|---|---|---|---|---|---|
| parser/parser.py:104-118 | after the modifier loop, `_detect_method` compares `i - 2` and then `i - 3` against the access modifier and annotations. When no access modifier is present it does not shift the index, unlike `_detect_class`, which does `i += 1` in that branch. The annotation scan and the Javadoc check then start one token too far back | `@A @B void f() {` reports annotations `['@A']`; `/** d */ static void f() {` reports no docs | the prefix parts in front of the head, as `_detect_class` reads them: `['@A', '@B']` and the Javadoc `/** d */` | not executed | DocParser.DetectMethodAsWritten (exhibited by DocParser.AnnotationLost, DocParser.DocsLost; used by DocParser.ParseAsWritten) | DocParser.DetectMethod (proved equal to the declaration prefix via DocParser.MethodScanAgrees) |
