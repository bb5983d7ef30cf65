# MossTank verification

A Dafny 4.11 model of the parts of MossTank whose correctness rests on more than
reading one function, with proofs of what they promise. `dafny verify
dfyconfig.toml` checks the whole project.

The files follow the program's own parts.

**The expression language.** `ExpressionLexer` reads text by longest match and
drops what it cannot read; `ExpressionGrammar` says what the recovering parser
answers, `ExpressionDerivations` relates that to the strict grammar,
`ExpressionPrinter` writes trees back as tokens and `ExpressionText` as text, and
`ExpressionParser` is the parser itself, proved to answer as said;
`ExpressionRecovery` says which broken texts are mended, and how. `ReferenceSort` is the
in-place sort driven by a user's comparison, and `SortReference` the order in which it
asks about pairs and moves them. `CollectionHeap` holds the shared lists and dictionaries and
the guard against cycles; `SavedValues` stores and rebuilds values as JSON.

**Fast forms of simple things.** `CombatText` (lines read without running their
regular expressions), `SpellDescriptions` (patterns matched by hand), `SpellNames`
(an index of hash buckets in place of a scan), `Dictionaries` (the two maps in
.NET order), `ItemLedger` (a table that writes later than it changes).

**Planners and selectors.** `DrainPlan`, `ExperiencePlan`, `WeaponLadder`,
`TargetSelection`.

**State machines.** `CastTracker` and `KillStatistics`.

Conventions: a floating-point number is a real (rounding to even and the cast to
32 bits are written out where the code rounds); text is a sequence of characters;
casing, hashing, trimming, collation and the engine's character classes are
functions passed in, of which only the equalities the code relies on are required;
a class in the model has the source's fields, and each of its methods is proved
against a function of the old state, about which the lemmas speak.

## What turned out not to hold

- A plain pattern read by hand (`combat_text.rs:65-71` says its suffix never ends in
  a line feed, which nothing enforces) differs from its regular expression exactly
  when its literal text ends in a line feed: `CombatText.PlainShapeIsExactUnlessLineFeed`,
  with the line that is lost in `ReadLosesALineFeed`. A plain pattern with no line feed
  in it, as those of `combat_text.rs:326-402` are, is read exactly: `NoLineFeedIsExact`.
- `ascii_patterns::increases` (`profile.rs:345-353` says `\s` is white space) takes
  white space without the vertical tab, which `\s` has: it differs from the expression
  exactly when a vertical tab sets off the word `skill`,
  `SpellDescriptions.IncreasesIsExactUnlessTab`; `TabSplitsTheSkill` is such a description.
- The target comparison is an order among candidates that agree in pairs
  (`TargetSelection.PreferenceIsTransitive`, `NoPreferenceIsTransitive`): none of the three
  is out of order with the others in any of their six orders (`AgreementOrders`). Every
  pair that does not agree is out of order with some third (`DisagreementDisorders`), and
  there are three kinds: one exactly at the range of the method that has one (`TiedBreaks`),
  two within the reach under the angle or an unknown method, which takes a distance below
  zero (`ClashBreaks`), and two last targets astride the reach, the inner one to be
  re-wielded for (`AstrideBreaks`). A caller can only bring about the first:
  `controller/targets.rs:232` marks the one object that was fought last, and distances are
  lengths (`LengthsAgree`).
- A drain search that runs out of its 2000 nodes can answer a dearer plan than there
  is: `DrainPlan.NodesRunOutOnADearerPlan` is such an input, one that a table of martyr
  spells brings about (`ManyIsOffered`), and the spell answered is the dearer plan's
  (`DearerSpellAnswered`). Out of nodes, the answer
  is still the cheapest exactly when no complete plan through a node left on the stack
  is cheaper (`DrainPlan.OutOfNodesCheapestExactly`); the stack empties, and the answer
  is the cheapest, exactly when the trees hold fewer nodes
  (`DrainPlan.StackEmptiesExactlyWhenNodesLast`).
- A session teardown drops what the item ledger still has to write:
  the files stay those of a ledger that writes at once, all along a run, if and only
  if at each teardown nothing waits, or a delete of a file that is not there, or a save
  of what the file holds already (`ItemLedger.KeepsStepExactlyWhenOrderly`). What is
  left is what was flushed last (`ItemLedger.TeardownForgetsSinceTheFlush`);
  `TeardownCanLoseATimer` is such a run.

## Model

| member | source | states |
|---|---|---|
| ReferenceSort.Sort | rust/crates/mosstank-expr/src/reference_sort.rs:45-66 | for every comparison, even one that contradicts itself, sorting ends, asks about the pairs and leaves the items as the reference order says, and a list answered is a permutation of the list given; a consistent comparison that never faults always gets its list, sorted; a fault is the answer to the last call and is what is told of, and a consistent comparison never meets the out-of-range stop |
| SortReference.FirstAskedIsTheMiddle | rust/crates/mosstank-expr/src/reference_sort.rs:92-98 | whatever the comparison answers, the first pair asked about is the first item and the lower middle one |
| SortReference.PivotIsTheMedian | rust/crates/mosstank-expr/src/reference_sort.rs:94-102 | the first, middle and last item are left in order with the pivot between them, and no other moves |
| SortReference.AlikeAreTurnedAbout | rust/crates/mosstank-expr/src/reference_sort.rs:83-148 | items that all compare equal come out turned about, and each half of them again, down to single items |
| SortReference.SortAsksAtMost | rust/crates/mosstank-expr/src/reference_sort.rs:83-202 | a comparison that does not contradict itself is asked about at most 160 pairs an item and three more an item for each doubling of the list |
| SortReference.NestingIsLow | rust/crates/mosstank-expr/src/reference_sort.rs:131-147 | whatever the comparison answers, passes nest no deeper than the logarithm of the length to base two |
| ReferenceSort.Sorter.QuickSort | rust/crates/mosstank-expr/src/reference_sort.rs:83-148 | the stretch is rearranged in place and nothing outside it moves; sorted when the comparison is consistent, whichever side is recursed into and whenever the depth runs out |
| ReferenceSort.Sorter.Partition | rust/crates/mosstank-expr/src/reference_sort.rs:90-131 | both sweeps stay inside the stretch or stop out of range; afterwards the left side is at most the pivot and the right side at least |
| ReferenceSort.Sorter.Heapsort | rust/crates/mosstank-expr/src/reference_sort.rs:166-180 | the stretch is rearranged and, for a consistent comparison, sorted |
| ReferenceSort.Sorter.DownHeap | rust/crates/mosstank-expr/src/reference_sort.rs:182-202 | sinking one key restores the heap below it and moves nothing outside |
| ReferenceSort.SettledNarrows | rust/crates/mosstank-expr/src/reference_sort.rs:83-148 | once a partition is split at its pivot, sorting either side leaves every key outside the other side where it will stay |
| ReferenceSort.SplitAfterRearranging | rust/crates/mosstank-expr/src/reference_sort.rs:90-148 | sorting one side of a partition keeps both sides on their side of the pivot |
| ReferenceSort.HeapRootIsGreatest | rust/crates/mosstank-expr/src/reference_sort.rs:166-202 | no key of a heap is greater than its root |
| ReferenceSort.RootMovesToTail | rust/crates/mosstank-expr/src/reference_sort.rs:173-178 | swapping the root out extends the sorted tail and leaves a heap but for its root |
| ExpressionLexer.Lexer.Next | rust/crates/mosstank-expr/src/engine.rs:681-778 | from one position to the next the source is white space, dropped runs (each recorded with where it began) and one token, the longest match with ties to the earlier rule; a token always takes something, and its offset is the UTF-16 length of what stands before it |
| ExpressionLexer.Lexer.TryRules | rust/crates/mosstank-expr/src/engine.rs:681-760 | of all the rules, the longest match and the earlier of two, and how far any of them could still go |
| ExpressionLexer.MatchUnquoted | rust/crates/mosstank-expr/src/engine.rs:885-909 | the longest unquoted text of the language, and how far one could still go on |
| ExpressionLexer.MatchNumber | rust/crates/mosstank-expr/src/engine.rs:824-843 | the longest number: digits, with a point only when a digit follows it |
| ExpressionLexer.MatchQuoted | rust/crates/mosstank-expr/src/engine.rs:865-883 | the longest quoted text, an escape never closing it |
| ExpressionLexer.MatchOperator | rust/crates/mosstank-expr/src/engine.rs:588-620 | the longest operator of the table, and its kind |
| ExpressionLexer.NothingIsLost | rust/crates/mosstank-expr/src/engine.rs:681-778 | white space, tokens as spelled and dropped runs, in order, are the source |
| ExpressionLexer.DroppedRunMeans | rust/crates/mosstank-expr/src/engine.rs:729-745 | at a dropped run no token is there to be read; it is what some token might have started with and the one character none goes on with |
| ExpressionLexer.UnitsAddUp | rust/crates/mosstank-expr/src/engine.rs:660-672 | offsets count two for a character beyond the basic plane and one for any other |
| ExpressionLexer.EveryTextCanBeWritten | rust/crates/mosstank-expr/src/engine.rs:644-656 | a text with every character escaped is unquoted text and unescapes to itself |
| ExpressionDerivations.CompleteProgram | rust/crates/mosstank-expr/src/engine.rs:998-1387 | every token list the strict grammar derives is read, with no repair, to the trees of its derivation |
| ExpressionDerivations.SoundProgram | rust/crates/mosstank-expr/src/engine.rs:998-1387 | a token list read with no repair is derivable, to the trees it was read to |
| ExpressionDerivations.CompleteLevel | rust/crates/mosstank-expr/src/engine.rs:1018-1113 | at each precedence level, whatever follows that cannot go on the construct is left alone |
| ExpressionDerivations.SoundLevel | rust/crates/mosstank-expr/src/engine.rs:1018-1287 | a tree read with no repair at a level is grammatical and binds at least as tightly |
| ExpressionPrinter.ReadsExactlyTheGrammar | rust/crates/mosstank-expr/src/engine.rs:998-1387 | tokens read cleanly to given statements if and only if the strict grammar derives them so |
| ExpressionPrinter.OperatorsBindInOrder | rust/crates/mosstank-expr/src/engine.rs:1018-1113 | of two operators between numbers the one of the tighter row is applied first, and of one row the one further left |
| ExpressionPrinter.GrammarIsUnambiguous | rust/crates/mosstank-expr/src/engine.rs:1018-1148 | no token list has derivations of two meanings |
| ExpressionPrinter.PrintedReadsBack | rust/crates/mosstank-expr/src/engine.rs:998-1287 | any statements, printed with only the parentheses precedence demands, are read back as they were |
| ExpressionPrinter.ParenthesesAreDemanded | rust/crates/mosstank-expr/src/engine.rs:1018-1148 | the printer's parentheses cannot be left out: any derivation of the tree without a group binds too loosely there |
| ExpressionText.TextReadsBack | rust/crates/mosstank-expr/src/engine.rs:681-1387 | any statements the language can spell, printed to text, however the lexer's segments cut it, are lexed to the printed tokens with nothing dropped and parsed back with no repair |
| ExpressionText.LinesReadBack | rust/crates/mosstank-expr/src/engine.rs:681-778 | tokens spelled a line each are read back as those tokens, in whatever order they come |
| ExpressionText.TextStands | rust/crates/mosstank-expr/src/engine.rs:644-656 | every text has a spelling the lexer reads as that text: between backticks with escapes, or, for one ending in a backslash, bare with every character escaped |
| ExpressionText.NumberStands | rust/crates/mosstank-expr/src/engine.rs:824-843 | every spelling of a number is read as that number and as nothing longer |
| ExpressionParser.Parser.ParseProgram | rust/crates/mosstank-expr/src/engine.rs:998-1016 | ends on every token list, answers as the recovering grammar says, and on success has taken or skipped every token |
| ExpressionParser.Parser.ParseLeft | rust/crates/mosstank-expr/src/engine.rs:1264-1287 | one left-associative level reads as the recovering grammar says |
| ExpressionParser.Parser.ParseAssignment | rust/crates/mosstank-expr/src/engine.rs:1044-1064 | assignment to the right, only to a variable, as the recovering grammar says |
| ExpressionParser.Parser.RequireClosing | rust/crates/mosstank-expr/src/engine.rs:1300-1327 | takes the closer, skips one token for it, supplies it where an enclosing construct can go on, or refuses, as the recovering grammar says |
| ExpressionParser.Parser.Sync | rust/crates/mosstank-expr/src/engine.rs:1362-1389 | after an item, skips to where the list can go on, or refuses |
| ExpressionRecovery.StrayInGroupIsSkipped | rust/crates/mosstank-expr/src/engine.rs:1300-1309 | a group with one token before its closer that cannot go on with it is read, wherever it stands, to the tree of its derivation, and that token is skipped |
| ExpressionRecovery.StrayInParentheses | rust/crates/mosstank-expr/src/engine.rs:1300-1309 | so of a whole program, with exactly one repair |
| ExpressionRecovery.OtherGroupsAreRefused | rust/crates/mosstank-expr/src/engine.rs:1310-1327 | a group with its closer neither next nor next but one, before a token no enclosing construct waits for, is refused |
| ExpressionRecovery.UnclosedIndexIsRefused | rust/crates/mosstank-expr/src/engine.rs:1115-1148 | an index is closed by its own closer alone |
| ExpressionRecovery.StraysInCallAreSkipped | rust/crates/mosstank-expr/src/engine.rs:1362-1398 | a call is read as without the stray tokens among its arguments, one after the first and any run free of the stops after a later one |
| ExpressionRecovery.StrayBeforeBracketIsSkipped | rust/crates/mosstank-expr/src/engine.rs:1300-1309 | one token that skipping does not pass over, between a call of two arguments or more and its closer, is skipped for the closer |
| ExpressionRecovery.ShortCallLeftOpenIsRefused | rust/crates/mosstank-expr/src/engine.rs:1366-1377 | a call of one argument with two tokens after it that do not end it is refused |
| ExpressionRecovery.StopsAreNotPassedOver | rust/crates/mosstank-expr/src/engine.rs:1391-1398 | skipping after a later argument stops at a comma or closer, at an operator and at what ends a construct around it, and nowhere else |
| ExpressionRecovery.StraysInProgramAreSkipped | rust/crates/mosstank-expr/src/engine.rs:1362-1387 | a program is read as without the stray tokens between its statements, with just one repair for each of them |
| ExpressionRecovery.TwoStraysAfterTheFirstAreRefused | rust/crates/mosstank-expr/src/engine.rs:1366-1377 | two tokens after the first statement that do not end it are refused |
| ExpressionRecovery.CutLevel | rust/crates/mosstank-expr/src/engine.rs:1310-1325 | an expression that lacks closers at its end, however many and however deep, before a token that ends something it stands in, is read to the tree of the expression closed, and the token is left |
| ExpressionRecovery.ClosersAtTheEndAreSupplied | rust/crates/mosstank-expr/src/engine.rs:1310-1325 | so of a statement at the end of a program, with exactly one repair for each closer left out |
| ExpressionParser.TextIsEveryToken | rust/crates/mosstank-expr/src/engine.rs:1408-1441 | but for supplied closers the kept text is every token as written, in order |
| ExpressionParser.AsManyNotesAsRepairs | rust/crates/mosstank-expr/src/engine.rs:1408-1429 | there is a note for each skipped token and each supplied closer, and no other |
| ExpressionParser.ReadAll | rust/crates/mosstank-expr/src/engine.rs:681-778 | all the tokens of a source, whose segments cover it without a gap |
| ExpressionParser.NotesTakenApart | rust/crates/mosstank-expr/src/engine.rs:1408-1441 | in the one list of repairs the parser's notes stand in their order and the lexer's runs in theirs, up to the last token asked for |
| ExpressionParser.Compile | rust/crates/mosstank-expr/src/engine.rs:25-49 | succeeds exactly when the recovering grammar reads the source's tokens, the empty source apart; on success the segments spell the source, every token is in the log in order, the text is that of the log, and the one list of repairs has what the lexer dropped and what the parser mended in the order they came about, each with its offset, and none is missing; a refusal is the grammar's |
| CollectionHeap.ContainsReference | rust/crates/mosstank-expr/src/core.rs:535-557 | the search ends on every finite heap; answering true it has found the destination, answering false it has finished with all it visited |
| CollectionHeap.WouldCycle | rust/crates/mosstank-expr/src/core.rs:559-573 | answers true if and only if the destination is the value or inside it, at any depth |
| CollectionHeap.GuardedChangeKeepsAcyclic | rust/crates/mosstank-expr/src/core.rs:559-573 | adding a value the collection is not inside of leaves no collection inside itself |
| CollectionHeap.RefusedAdditionsWouldCycle | rust/crates/mosstank-expr/src/core.rs:559-573 | every addition the guard refuses, to the end of a list, anywhere in it, or under any key of a dictionary, would have closed a cycle |
| CollectionHeap.StepKeepsSound | rust/crates/mosstank-expr/src/core.rs:688-1215 | every list and dictionary function, and every unguarded push into a result nothing holds yet, keeps the heap closed and without cycles |
| CollectionHeap.RunsNeverCycle | rust/crates/mosstank-expr/src/core.rs:688-1215 | after any run from an empty heap, nothing a collection holds holds it back |
| CollectionHeap.Collections.ListAdd | rust/crates/mosstank-expr/src/core.rs:702-714 | appends, or refuses a value of the wrong kind or that would close a cycle and changes nothing |
| CollectionHeap.Collections.ListInsert | rust/crates/mosstank-expr/src/core.rs:716-732 | inserts in place, at the index with its fraction cut off; the guard speaks before the index does |
| CollectionHeap.Collections.ListRemove | rust/crates/mosstank-expr/src/core.rs:734-753 | takes out the first item that is the same value, if there is one |
| CollectionHeap.Collections.ListPop | rust/crates/mosstank-expr/src/core.rs:857-877 | takes out and answers the item at the index, its fraction cut off, the last for none or for -1 and nothing that is cut to it, or refuses |
| CollectionHeap.Collections.DictCreate | rust/crates/mosstank-expr/src/core.rs:1039-1062 | succeeds exactly for pairs of texts, all different, and values; the new dictionary holds them |
| CollectionHeap.Collections.DictAddItem | rust/crates/mosstank-expr/src/core.rs:1078-1095 | sets a key unless that would close a cycle, and says whether it replaced one |
| CollectionHeap.Collections.DictCopy | rust/crates/mosstank-expr/src/core.rs:1194-1208 | a new dictionary that enumerates as the old one, every other collection unchanged |
| CollectionHeap.ListFunctionsDo | rust/crates/mosstank-expr/src/core.rs:702-877 | item by item, what adding, inserting, removing at an index and clearing leave in a list; an addition that would close a cycle leaves all as it was |
| CollectionHeap.SettingAKeyDoes | rust/crates/mosstank-expr/src/core.rs:1078-1095 | a key set holds the value and every other key what it held, unless that would close a cycle |
| CollectionHeap.RemovingAKeyDoes | rust/crates/mosstank-expr/src/core.rs:1097-1130 | a key removed is gone and every other key holds what it held |
| CollectionHeap.OthersStay | rust/crates/mosstank-expr/src/core.rs:688-1215 | no function changes a collection it is not called on |
| CollectionHeap.SameValueTellsApart | rust/crates/mosstank-expr/src/value.rs:673-691 | an item is found again by what it is: a reference by what it refers to, all else by what it says |
| SavedValues.SavedComesBack | rust/crates/mosstank-expr/src/json.rs:45-115 | what is stored is rebuilt as it was, from memory or through text that names its infinities: list order, dictionary order, ids and coordinates |
| SavedValues.StoringFailsExactly | rust/crates/mosstank-expr/src/json.rs:100-113 | storing fails if and only if a stopwatch or a control is somewhere inside |
| SavedValues.UnsavableIsReached | rust/crates/mosstank-expr/src/json.rs:45-115 | in a heap, that is if and only if one can be reached from the value |
| SavedValues.Store | rust/crates/mosstank-expr/src/json.rs:45-115 | storing a value of an acyclic heap ends, however collections are shared, and answers the saved form of all that is inside |
| SavedValues.Restore | rust/crates/mosstank-expr/src/json.rs:153-223 | rebuilds any JSON or names its first damage |
| SavedValues.SavedFormat | rust/crates/mosstank-expr/src/json.rs:45-113 | the saved form of each single value, property by property |
| SavedValues.NoKindIsANumber | rust/crates/mosstank-expr/src/json.rs:153-170 | what says no kind is a number, and what says no number is 0 |
| SavedValues.ObjectIsTheWholePart | rust/crates/mosstank-expr/src/json.rs:200-223 | a saved id has its fraction cut off, and is refused outside 32 bits |
| SavedValues.SessionValuesComeBack | rust/crates/mosstank-expr/src/json.rs:45-223 | after any run of the functions every value is storable unless an unsavable one is reached from it, and comes back |
| CombatText.LeadingLiteralLosesNothing | rust/crates/mosstank-automation/src/combat_text.rs:144-170 | every line a pattern matches starts with its literal start, dots as wildcards |
| CombatText.RequiredLiteralsLoseNothing | rust/crates/mosstank-automation/src/combat_text.rs:171-230 | every line a pattern matches contains every run required of it |
| CombatText.RequiredLiterals | rust/crates/mosstank-automation/src/combat_text.rs:175-230 | the loop finds the runs on every text, well written or not |
| CombatText.SkipBracketed | rust/crates/mosstank-automation/src/combat_text.rs:231-257 | the loop finds the end of the group or class on every text |
| CombatText.SkipAtom | rust/crates/mosstank-automation/src/combat_text.rs:231-257 | on what a pattern is written as, that is the end of the group or class that opens there, whatever is nested in it |
| CombatText.ShapeIsExact | rust/crates/mosstank-automation/src/combat_text.rs:80-98 | a pattern has a plain shape if and only if it is written from it |
| CombatText.ReadPlain | rust/crates/mosstank-automation/src/combat_text.rs:100-110 | the reading by hand of a line less one final line feed |
| CombatText.ReadIsGreedy | rust/crates/mosstank-automation/src/combat_text.rs:65-110 | unless the literal text ends in a line feed, the reading finds a match when there is one, and the longest target |
| CombatText.PlainShapeIsExactUnlessLineFeed | rust/crates/mosstank-automation/src/combat_text.rs:65-110 | the reading answers as the expression on every line if and only if the literal text does not end in a line feed |
| CombatText.NoLineFeedIsExact | rust/crates/mosstank-automation/src/combat_text.rs:326-402 | a plain pattern with no line feed in it is read as its expression on every line |
| CombatText.ReadLosesALineFeed | rust/crates/mosstank-automation/src/combat_text.rs:100-110 | otherwise this line is matched and not read |
| CombatText.WaysAreMatches | rust/crates/mosstank-automation/src/combat_text.rs:65-110 | the ways to read a plain shape are the matches of its regular expression |
| CombatText.Matches | rust/crates/mosstank-automation/src/combat_text.rs:297-322 | with its prefilters a pattern answers what its engine alone would |
| SpellDescriptions.Increases | rust/crates/mosstank-buffs/src/profile.rs:491-524 | the shortest target and the skill flag that backtracking over every split of the white space finds first, with the code's white space |
| SpellDescriptions.IncreasesIsExactUnlessTab | rust/crates/mosstank-buffs/src/profile.rs:110-112 | it answers as the expression if and only if the opening words and a target without ` by ` are not followed by white space with a vertical tab and then the text's first ` skill by ` |
| SpellDescriptions.TabSplitsTheSkill | rust/crates/mosstank-buffs/src/profile.rs:491-524 | a description on which the two differ |
| SpellDescriptions.IncreasesMatchesOnce | rust/crates/mosstank-buffs/src/profile.rs:110-112 | the expression has one answer |
| SpellDescriptions.Protection | rust/crates/mosstank-buffs/src/profile.rs:461-489 | the shortest target of the expression, or none when it does not match |
| SpellDescriptions.Aura | rust/crates/mosstank-buffs/src/profile.rs:419-441 | true if and only if one of the phrases stands somewhere as whole words |
| SpellDescriptions.Find | rust/crates/mosstank-buffs/src/profile.rs:359-373 | the first occurrence at or after an index, whatever the case |
| SpellNames.SpellTable.FindByName | rust/crates/mosstank-automation/src/spells.rs:317-335 | with any hash, collisions and all, the first spell of the name, else the first that contains it |
| SpellNames.TryFindByName | rust/crates/mosstank-automation/src/spells.rs:84-103 | the scan's answer, by the same statement |
| SpellNames.OneAnswer | rust/crates/mosstank-automation/src/spells.rs:84-103 | there is only one such answer, so the index answers as the scan |
| SpellNames.SpellTable.BuildIndex | rust/crates/mosstank-automation/src/spells.rs:265-290 | each index kept is the first of its name under its name's hash, and every name is kept |
| SpellNames.FoldedHash | rust/crates/mosstank-automation/src/spells.rs:231-245 | the byte-by-byte hash of an ASCII name is the hash of its form |
| SpellNames.SameFoldedIsSameName | rust/crates/mosstank-automation/src/spells.rs:247-253 | the ASCII shortcut decides what comparing the forms decides |
| Dictionaries.RunsRefineAMap | rust/crates/mosstank-dotnet/src/collections.rs:197-260 | after any run of operations the slot table stands for the map they mean, each key as first added |
| Dictionaries.EnumerationIsExact | rust/crates/mosstank-dotnet/src/collections.rs:155-191 | the enumeration lists each entry of the map once |
| Dictionaries.PutKeepsFreeList | rust/crates/mosstank-dotnet/src/collections.rs:216-237 | the freed slots stay exactly the empty ones, each once |
| Dictionaries.SlotFreed | rust/crates/mosstank-dotnet/src/collections.rs:248-253 | a removal keeps that too |
| Dictionaries.AdditionTakesTheFreedSlot | rust/crates/mosstank-dotnet/src/collections.rs:9-15 | an addition after a removal takes the slot it freed |
| Dictionaries.AdditionStandsInForTheRemoved | rust/crates/mosstank-dotnet/src/collections.rs:9-15 | it stands where the removed entry stood, and adding that back undoes the removal |
| Dictionaries.LastFreedFirstTaken | rust/crates/mosstank-dotnet/src/collections.rs:401-418 | of two freed slots the last freed is taken first |
| Dictionaries.InsertionOrder | rust/crates/mosstank-dotnet/src/collections.rs:9-12 | a run that removes nothing enumerates in insertion order |
| Dictionaries.DictionariesAgree | rust/crates/mosstank-expr/src/dictionary.rs:47-101 | any run on the two dictionaries fills the same slots, enumerates identically and answers every lookup alike |
| Dictionaries.RetainKeepsTheKept | rust/crates/mosstank-dotnet/src/collections.rs:262-277 | filtering asks in enumeration order and leaves a sound table of exactly the kept entries, in order |
| Dictionaries.FoldedDictionary.Insert | rust/crates/mosstank-dotnet/src/collections.rs:216-237 | the slot table's own insertion; answers the value replaced |
| Dictionaries.FoldedDictionary.Remove | rust/crates/mosstank-dotnet/src/collections.rs:248-253 | the slot table's own removal; answers the value removed |
| Dictionaries.FoldedDictionary.Retain | rust/crates/mosstank-dotnet/src/collections.rs:262-277 | the loop leaves the filtered table |
| Dictionaries.StringDictionary.Insert | rust/crates/mosstank-expr/src/dictionary.rs:58-75 | the same table's insertion, keys as they are |
| Dictionaries.StringDictionary.Copied | rust/crates/mosstank-expr/src/dictionary.rs:122-131 | a copy that enumerates alike with no free slot |
| ItemLedger.WriteBehindRefinesWriteThrough | rust/crates/mosstank-buffs/src/item_ledger.rs:7-10 | over any run, no teardown having anything to write that would change the stored file, the table is that of one that writes at once, and a flush leaves every file as that one has it |
| ItemLedger.MergeIsCarryOut | rust/crates/mosstank-buffs/src/item_ledger.rs:150-172 | what is merged into one pending write comes, once flushed, to each request carried out in turn |
| ItemLedger.EffectAsksEnough | rust/crates/mosstank-buffs/src/item_ledger.rs:229-316 | no operation changes a durable row without asking for a save after it |
| ItemLedger.FileTellsTheTable | rust/crates/mosstank-buffs/src/item_ledger.rs:80-146 | whatever the files were, the bound one always holds exactly the durable timers |
| ItemLedger.FlushedFileTellsTheTable | rust/crates/mosstank-buffs/src/item_ledger.rs:148-172 | so does the stored file after a flush |
| ItemLedger.KeepsStepExactlyWhenOrderly | rust/crates/mosstank-buffs/src/item_ledger.rs:7-10 | the two ledgers keep step at every point of any run if and only if at each of its teardowns nothing waits, or a delete of no file, or a save of the very moment and rows stored |
| ItemLedger.TeardownLosesNothingExactly | rust/crates/mosstank-buffs/src/item_ledger.rs:408-414 | the same for the one teardown that ends a run |
| ItemLedger.TornDownToTheFlush | rust/crates/mosstank-buffs/src/item_ledger.rs:408-414 | a teardown leaves in the file the durable timers there were at the last flush, whatever came after it |
| ItemLedger.TeardownForgetsSinceTheFlush | rust/crates/mosstank-buffs/src/item_ledger.rs:408-414 | so it loses timers if and only if the durable ones have changed since |
| ItemLedger.TeardownCanLoseATimer | rust/crates/mosstank-buffs/src/item_ledger.rs:408-414 | an instance: a timer noted and not flushed is lost |
| ItemLedger.CancelTakesForcesBack | rust/crates/mosstank-buffs/src/item_ledger.rs:356-372 | a run ended by a cancel leaves the table, what waits and the files as if no force or cancel had been in it |
| ItemLedger.ExpireKeepsWhatRuns | rust/crates/mosstank-buffs/src/item_ledger.rs:375-390 | expiring keeps a timer, as it was, if and only if it ends no sooner than the moment given |
| ItemLedger.ClockBackForgetsAll | rust/crates/mosstank-buffs/src/item_ledger.rs:436-449 | a look at a clock gone back forgets every timer but one noted just then |
| ItemLedger.CastRunsToTheLater | rust/crates/mosstank-buffs/src/item_ledger.rs:229-316 | after a tracked cast its timer runs to the later of the end it had, if that was the same item's, and the cast's own; no other timer changes |
| ItemLedger.UntrackedCastChangesNothing | rust/crates/mosstank-buffs/src/item_ledger.rs:229-262 | a cast without time to it, or past the calendar, changes no timer |
| ItemLedger.InvalidationsTakeTheirOwn | rust/crates/mosstank-buffs/src/item_ledger.rs:393-434 | an invalidation takes just the timers of the item, or of the one family on it |
| ItemLedger.AskingForgetsAnothersTimers | rust/crates/mosstank-buffs/src/item_ledger.rs:342-355 | a question about an item forgets the id's timers if and only if one of them was kept for another item |
| ItemLedger.ForceAndCancelMoveTheDue | rust/crates/mosstank-buffs/src/item_ledger.rs:356-372 | a force has every timer due at the moment it names, a cancel at its real end; neither moves its end |
| ItemLedger.BindRestoresTheTimeLeft | rust/crates/mosstank-buffs/src/item_ledger.rs:80-146 | a bind restores, of a file that can be believed, the longest whole row of each key that still runs, with the time left that its stored end says, and of any other file nothing |
| ItemLedger.FlushedRowsAre | rust/crates/mosstank-buffs/src/item_ledger.rs:466-484 | a flush leaves a row for each timer whose item can be told again, with all that is kept of it, and no other row |
| ItemLedger.MomentsAreOfTheCalendar | rust/crates/mosstank-stores/src/item_enchant_store.rs:18-21 | a moment is a millisecond of the years 1 to 9999 |
| ItemLedger.ItemEnchantLedger.NoteCast | rust/crates/mosstank-buffs/src/item_ledger.rs:229-316 | the noted table and the write it asks for, on every path |
| ItemLedger.ItemEnchantLedger.RemainingSeconds | rust/crates/mosstank-buffs/src/item_ledger.rs:320-337 | the longest time left at that quality or better, none below zero |
| ItemLedger.ItemEnchantLedger.RemainingItemSeconds | rust/crates/mosstank-buffs/src/item_ledger.rs:342-355 | the same of an item, after what was kept for another under its id is forgotten |
| ItemLedger.ItemEnchantLedger.BindPersistence | rust/crates/mosstank-buffs/src/item_ledger.rs:80-146 | flushes to the scope left, then restores what still runs of the one bound |
| ItemLedger.ItemEnchantLedger.Flush | rust/crates/mosstank-buffs/src/item_ledger.rs:150-172 | carries out the pending write once |
| DrainPlan.Search | rust/crates/mosstank-combat/src/drain.rs:214-269 | visits at most 2000 nodes, exactly the nodes of the trees it searches; ending by an empty stack its plan replays to a finished monster at the least cost of every complete plan within the allowance, and no lower allowance had one |
| DrainPlan.SearchAt | rust/crates/mosstank-combat/src/drain.rs:219-268 | one allowance is searched to the end exactly when its tree and the nodes before it stay under 2000, visits each node of the tree once, and finds the cheapest complete plan, or there is none |
| DrainPlan.DeeperIsTheSame | rust/crates/mosstank-combat/src/drain.rs:219-268 | a tree found to hold fewer nodes than it was followed deep has been counted whole |
| DrainPlan.OneEnding | rust/crates/mosstank-combat/src/drain.rs:214-269 | how the search ends, and the cost of the plan it proves cheapest, follow from the question alone |
| DrainPlan.StackEmptiesExactlyWhenNodesLast | rust/crates/mosstank-combat/src/drain.rs:214-269 | the search ends by emptying its stack at the first allowance that has a plan if and only if the trees up to it hold fewer than 2000 nodes |
| DrainPlan.OutOfNodesCheapestExactly | rust/crates/mosstank-combat/src/drain.rs:231-234 | the plan answered out of nodes is the cheapest if and only if no complete plan through a node not gone on from is cheaper |
| DrainPlan.NodesRunOutOnADearerPlan | rust/crates/mosstank-combat/src/drain.rs:214-269 | an input on which the nodes run out and every answer the search can give is dearer than another complete plan |
| DrainPlan.ManyIsOffered | rust/crates/mosstank-combat/src/drain.rs:164-196 | that input is what a table of martyr spells, with the heal that is always added, comes to |
| DrainPlan.DearerSpellAnswered | rust/crates/mosstank-combat/src/drain.rs:154-212 | with that table the spell answered is 2, where a cheaper complete plan opens with 1 |
| DrainPlan.ConsiderCovers | rust/crates/mosstank-combat/src/drain.rs:232-282 | considering one more step leaves every complete plan either no cheaper than the best or still ahead of the stack |
| DrainPlan.StepKeepsBounds | rust/crates/mosstank-combat/src/drain.rs:62-105 | factors within 0 and 1 and multipliers not negative keep the monster's health between 0 and its start and the caster's between 0 and its maximum |
| DrainPlan.VisitedStatesKeepBounds | rust/crates/mosstank-combat/src/drain.rs:214-269 | so does every state of the search tree |
| DrainPlan.Greedy | rust/crates/mosstank-combat/src/drain.rs:284-339 | of the steps that keep the floor, or of all when none does, the cheapest that finishes, else the one of greatest rate, the first counting as having none; a heal when there is none |
| DrainPlan.PoolHolds | rust/crates/mosstank-combat/src/drain.rs:284-308 | the pick is made from every step worth its while, or where one keeps the floor from just those that do |
| DrainPlan.RateIsPointsOverTime | rust/crates/mosstank-combat/src/drain.rs:310-339 | a step's rate is what it takes a millisecond, a martyr with 180 more points over 3200 more |
| DrainPlan.DrainTakesAndGives | rust/crates/mosstank-combat/src/drain.rs:65-88 | a drain takes the least of its rounded share, the monster's health and its maximum and gives that times its multiplier; where that is more than the caster lacks it gives just what is lacking, and takes less by the worth of what is over |
| DrainPlan.DrainIsWorthWhatItGives | rust/crates/mosstank-combat/src/drain.rs:76-84 | what a drain takes is worth what it gives, within the rounding: nothing is taken to heal beyond the maximum |
| DrainPlan.MartyrPaysAndTakes | rust/crates/mosstank-combat/src/drain.rs:89-101 | a martyr costs the rounded share of the caster's health and takes that times the multiplier, down to zero |
| DrainPlan.HealGives | rust/crates/mosstank-combat/src/drain.rs:102-104 | a heal gives 115 points or what is lacking |
| DrainPlan.PlanCostAddsUp | rust/crates/mosstank-combat/src/drain.rs:143-150 | a plan costs its casts' times and one for each cast |
| DrainPlan.SearchWastesNothing | rust/crates/mosstank-combat/src/drain.rs:231-268 | no plan of the tree heals or drains to no use, goes past the allowance, or leaves the caster below the floor where another step would not |
| DrainPlan.SearchLeavesNothingOut | rust/crates/mosstank-combat/src/drain.rs:231-268 | an open plan of the tree goes on by every step of use that is within the allowance and keeps the floor |
| DrainPlan.OfferedAsTheRowSays | rust/crates/mosstank-combat/src/drain.rs:164-196 | a row of the table is offered, if it can be cast and is the ring or not as asked, with its own numbers and 800 milliseconds more |
| DrainPlan.SelectSpell | rust/crates/mosstank-combat/src/drain.rs:154-212 | the first spell of such a plan over exactly the steps on offer, 0 to heal |
| ExperiencePlan.Spend | rust/crates/mosstank-data/src/experience.rs:293-316 | each target takes consecutive rows; where rows only get dearer, the ranks taken are a prefix of the merge by cost over weight, ties to the earlier entry, and it stops only for the steps, the end of the ranks or the next rank's price |
| ExperiencePlan.Plan | rust/crates/mosstank-data/src/experience.rs:260-348 | that, within the balance, and the same spends sorted by cost with each target's total kept, chunked or not |
| ExperiencePlan.MergingIsPrefix | rust/crates/mosstank-data/src/experience.rs:293-316 | ranks picked in order, each before every next rank, are a prefix of the merge |
| ExperiencePlan.PickKeepsMerging | rust/crates/mosstank-data/src/experience.rs:293-316 | taking the least key keeps them so |
| ExperiencePlan.ByCostIsStable | rust/crates/mosstank-data/src/experience.rs:346-347 | the sort keeps the steps, the order of those of one cost and what each target gets |
| ExperiencePlan.Chunks | rust/crates/mosstank-data/src/experience.rs:320-334 | chunks of the limit and a rest that add up to the total |
| ExperiencePlan.PriceIsTheRow | rust/crates/mosstank-data/src/experience.rs:186-211 | a rank costs its row of the table of what it raises; none of the last rows is for sale, nor a skill not trained |
| ExperiencePlan.ChosenForItself | rust/crates/mosstank-data/src/experience.rs:260-291 | an entry takes part as the first target of its name, if it weighs something and its next rank costs something |
| ExperiencePlan.FirstChosenIsCheaperByWeight | rust/crates/mosstank-data/src/experience.rs:293-316 | of two ranks the one chosen first costs no more for its weight |
| WeaponLadder.Select | rust/crates/mosstank-data/src/weapon.rs:256-396 | the one pass answers as the cascade: slayer, vulnerable best-rated, imbued, (void, which never answers,) best-rated, caster, plain, launcher, last resort |
| WeaponLadder.NoImbuementIsVoid | rust/crates/mosstank-data/src/weapon.rs:377-379 | no item is ever remembered as imbued with the void, so that stage never answers |
| WeaponLadder.PickStandsHighest | rust/crates/mosstank-data/src/weapon.rs:364-396 | the pick stands on the highest rung that any weapon stands on: slayer, rated for a wanted element the monster is vulnerable to, imbued with a wanted one, rated for one, rated caster, striking with one, launcher, anything usable, any caster; it is a last resort on the last two alone |
| WeaponLadder.SlayerWins | rust/crates/mosstank-data/src/weapon.rs:284-300 | the last slayer of the monster's kind wins outright |
| WeaponLadder.RatingOrdersByBonus | rust/crates/mosstank-data/src/weapon.rs:160-196 | a bonus is worth more than all after it together |
| WeaponLadder.BestIsEarliestBest | rust/crates/mosstank-data/src/weapon.rs:337-366 | per element, the earliest of the highest-rated offers, a plain launcher standing in for any wanted element it can deliver |
| WeaponLadder.LastFitIsLast | rust/crates/mosstank-data/src/weapon.rs:235-245 | per role, the last item that fits |
| WeaponLadder.PickIsEligible | rust/crates/mosstank-data/src/weapon.rs:276-283 | a pick is profiled, wieldable and not the excluded item |
| WeaponLadder.OfferAll | rust/crates/mosstank-data/src/weapon.rs:338-362 | one item's offers leave the memory holding the best of each element |
| WeaponLadder.RendsNameNothingTogether | rust/crates/mosstank-data/src/weapon.rs:94-110 | two rends, or a rend beside a critical bonus, name no element |
| TargetSelection.PreferenceIsTransitive | rust/crates/mosstank-combat/src/selection.rs:107-256 | preference carries over, for every mode and method, among candidates that agree in pairs |
| TargetSelection.NoPreferenceIsTransitive | rust/crates/mosstank-combat/src/selection.rs:107-256 | so does the lack of it: the comparison is a strict weak order |
| TargetSelection.AgreementOrders | rust/crates/mosstank-combat/src/selection.rs:107-256 | three that agree in pairs are in order, whichever way round they are taken |
| TargetSelection.DisagreementDisorders | rust/crates/mosstank-combat/src/selection.rs:107-256 | every two that do not agree are out of order with some third that agrees with one of them |
| TargetSelection.ClashBreaks | rust/crates/mosstank-combat/src/selection.rs:191-211 | every two candidates that clash within the reach break the order with a third that agrees with both |
| TargetSelection.TiedBreaks | rust/crates/mosstank-combat/src/selection.rs:213-235 | every candidate exactly at the range breaks it with any nearer one it faces better than |
| TargetSelection.AstrideBreaks | rust/crates/mosstank-combat/src/selection.rs:191-218 | every two last targets on either side of the reach, the nearer to be re-wielded for, break it with a third that agrees with both |
| TargetSelection.LengthsAgree | rust/crates/mosstank-combat/src/controller/targets.rs:198-232 | with distances not below zero only the method that has a range knows any disagreement, and with one last target only a candidate tied at that range |
| TargetSelection.ChosenIsTop | rust/crates/mosstank-combat/src/selection.rs:68-104 | the one pass ends at the earliest candidate none is preferred to, which is preferred to all before it |
| TargetSelection.TopMoves | rust/crates/mosstank-combat/src/selection.rs:68-104 | one more candidate: the top of the longer list is it or still the old one, as one comparison says |
| TargetSelection.Select | rust/crates/mosstank-combat/src/selection.rs:68-104 | the pick is where that pass ends, so on ordered candidates the earliest that none is preferred to; none outranks it, and none of its rank is placed before it |
| TargetSelection.NoneOutranksThePick | rust/crates/mosstank-combat/src/selection.rs:107-185 | in any list none comes before the pick by owing a debuff where that outranks, by priority, by owing one where that is asked, by urgency or by the lock |
| TargetSelection.PickIsForemost | rust/crates/mosstank-combat/src/selection.rs:107-256 | in an orderly list none of its rank comes before it by fewer re-wields within the reach, by being the last target, or as the method orders distance and angle |
| TargetSelection.SomethingIsPicked | rust/crates/mosstank-combat/src/selection.rs:87-104 | where any candidate is to be attacked, one is picked |
| TargetSelection.OrderMakesNoDifference | rust/crates/mosstank-combat/src/selection.rs:68-104 | without ties, the candidates in any order give the same pick |
| TargetSelection.TwoLastTargetsGoRound | rust/crates/mosstank-combat/src/selection.rs:203-213 | with two last targets preference goes round |
| TargetSelection.NegativeDistancesGoRound | rust/crates/mosstank-combat/src/selection.rs:187-200 | with distances below zero too |
| TargetSelection.AtTheRangeTiesFail | rust/crates/mosstank-combat/src/selection.rs:210-235 | a distance exactly at the range ties with two that do not tie |
| KillStatistics.NothingIsCountedTwice | tools/collect-kill-statistics.py:117-166 | over any chain of looks a session's contributions are not negative and come to at most its total less its baseline, and to just that if it was never gapped; for kills and for seconds |
| KillStatistics.IntervalWithinGrowth | tools/collect-kill-statistics.py:64-72 | one look adds no more than the counter grew |
| KillStatistics.IntervalIsGrowth | tools/collect-kill-statistics.py:154-166 | and just that for a known session not gapped before nor now |
| KillStatistics.IntervalsWithinTotal | tools/collect-kill-statistics.py:117-166 | a character's interval gains over any chain come to at most its rows' cumulative total |
| KillStatistics.NextIsSound | tools/collect-kill-statistics.py:85-105 | the carried state lists each session once, each snapshot valid |
| KillStatistics.GaplessRowTellsTheGrowth | tools/collect-kill-statistics.py:117-166 | a row none of whose sessions has a gap adds to its interval exactly what its character's totals grew by since the last look |
| KillStatistics.GappedIsReported | tools/collect-kill-statistics.py:139-156 | a session starts its next interval afresh exactly when a gap of its snapshot is reported, or its file failed once it was replaced |
| KillStatistics.NoneOverlap | tools/collect-kill-statistics.py:181-194 | where no overlap is listed, no two sessions of the character cover some same time |
| KillStatistics.ExpectingKeeps | tools/collect-kill-statistics.py:196-206 | asking for characters adds rows that say they are missing, adds gaps to rows there were, and changes nothing else |
| KillStatistics.ExpectedAreFresh | tools/collect-kill-statistics.py:196-206 | where no row has such a gap, every character asked for had a session open and fresh |
| KillStatistics.ReportedRateIsOfTheGrowth | tools/collect-kill-statistics.py:207-213 | a reported interval rate is 3600 times the growth of the character's kills since the last look over the growth of its covered seconds |
| KillStatistics.CumulativeRateIsOfOneRecorder | tools/collect-kill-statistics.py:181-211 | a cumulative rate is reported only if no two of the character's sessions overlap |
| KillStatistics.CleanReport | tools/collect-kill-statistics.py:196-220 | a report without gaps read every file, found just one session open and fresh of every character asked for, and gained in each row what its totals grew by |
| KillStatistics.FilesTakenOrBad | tools/collect-kill-statistics.py:64-105 | a file is taken if and only if its snapshot makes sense and goes on from what was known, and is bad if and only if not |
| KillStatistics.SessionAdds | tools/collect-kill-statistics.py:117-166 | a session adds what its counter grew by since it was last seen, all of it if it began since the last look, and nothing unread, at the first look, after a gap, or if it is older and only now found |
| KillStatistics.ReplacedSessionIsHistory | tools/collect-kill-statistics.py:107-138 | an open session that stopped before a later one of its character seen at the last look began is history and no gap |
| KillStatistics.OverlapIsASharedMoment | tools/collect-kill-statistics.py:181-194 | two sessions overlap if and only if they are one character's and some moment is recorded by both |
| KillStatistics.OverlapCountsIfShared | tools/collect-kill-statistics.py:181-194 | an overlap counts against the interval if and only if such a moment lies in it |
| KillStatistics.UnrecordedTime | tools/collect-kill-statistics.py:168-180 | the time offline before a new session runs from the last of its character's to end, or from the last look if that was later |
| KillStatistics.Observe | tools/collect-kill-statistics.py:79-223 | the loops leave that state and a row for each character that lists its sessions, says what they hold and gain, how many are open and fresh, the gaps, replaced sessions and new baselines among them, the time offline between them and the overlaps; the report is those rows after the characters asked for, with their rates and status; a clock that went back is refused |
| CastTracker.FramesMakeNoDifference | rust/crates/mosstank-automation/src/cast_tracker.rs:445-475 | however time is cut into frames, the events and the state are those of one frame |
| CastTracker.UnansweredCastIsPoked | rust/crates/mosstank-automation/src/cast_tracker.rs:445-463 | an unanswered cast is re-issued exactly 24 times, 49 on low mana, before it times out |
| CastTracker.OneEndAndAnsweredFirst | rust/crates/mosstank-automation/src/cast_tracker.rs:289-500 | between two casts begun there is at most one end; any but a launch timeout comes after that cast's answer, a launch timeout without one |
| CastTracker.AnsweredCastEndsExactly | rust/crates/mosstank-automation/src/cast_tracker.rs:361-500 | an answered cast ends as a kill, a success, a failure, a permanent failure or a timeout if and only if the line heard or the time gone by is what ends it so, and anything else leaves it waiting |
| CastTracker.EveryEndIsCaused | rust/crates/mosstank-automation/src/cast_tracker.rs:289-500 | over any run every end is that of the cast begun last, and comes of a line or of time that ends a cast so |
| CastTracker.WordsAnswerOrDrop | rust/crates/mosstank-automation/src/cast_tracker.rs:361-402 | before it is answered a cast's own words answer it, the words of another spell drop it without a result, and no other line does a thing |
| CastTracker.AskedAgainEachInterval | rust/crates/mosstank-automation/src/cast_tracker.rs:445-463 | an unanswered cast has been asked for again once for each whole interval gone by |
| CastTracker.LeavingTheResultArms | rust/crates/mosstank-automation/src/cast_tracker.rs:331-350 | a cast that leaves the wait for its result holds off the other attack school, and nothing else does |
| CastTracker.RunsKeepTheCourse | rust/crates/mosstank-automation/src/cast_tracker.rs:289-500 | re-issues, then at most an answer, then at most an end |
| CastTracker.RunIsSound | rust/crates/mosstank-automation/src/cast_tracker.rs:445-475 | a cast in flight never outlives its timers |
| CastTracker.SpellCastTracker.Advance | rust/crates/mosstank-automation/src/cast_tracker.rs:445-475 | the loop ends and gives the re-issues due and the timeout |
| CastTracker.SpellCastTracker.ObserveChat | rust/crates/mosstank-automation/src/cast_tracker.rs:361-438 | what a line does on every path |
| CastTracker.SpellCastTracker.Begin | rust/crates/mosstank-automation/src/cast_tracker.rs:289-316 | starts afresh, an item enchantment with no target name |

## Left out

- ExpressionLexer.Lexer.Next: the number a spelling stands for is not computed.
- ExpressionParser.Compile: the offset a refusal names is left out; its message is kept.
- ExpressionPrinter.PrintedReadsBack: offsets and the source text kept by a subtraction are erased.
- ReferenceSort.Sort: a comparison is a function of the call's number and its two arguments, so one that changes the list it sorts is not covered.
- CollectionHeap.RunsNeverCycle: an address is never reused within a run, and change marks and counters are not kept.
- SavedValues.SavedComesBack: collections shared or held twice come back as separate ones; negative zero and the digits of JSON text are not modelled, and which of two properties alike but for case is looked up is left open.
- CombatText.Matches: an engine stopped by its step limit is not covered; groups are those that capture or do not, without look-around.
- SpellDescriptions.Aura: the other patterns of that module are a plain search for one or two fixed phrases and are left out.
- SpellNames.SpellTable.FindByName: what it means for one name to contain another ignoring case is left open.
- Dictionaries.FoldedDictionary.Retain: the set of items is the same dictionary with no values and is not repeated.
- ItemLedger.WriteBehindRefinesWriteThrough: a storage that fails is not covered, nor a file of blank text; an expiry at the very least number is taken as any other.
- DrainPlan.Search: numbers past 32 bits in costs and scores, and rounding inside a product, are not covered.
- ExperiencePlan.Plan: weights are exact; the cost tables themselves and the policy's text forms are not part of this model.
- WeaponLadder.Select: ammunition is behind the deliverability function it is asked through.
- TargetSelection.Select: distances and angles are exact and never not a number.
- KillStatistics.Observe: a file is valid or not, however it fails; rows are a map by character, whose sorting for print is left out, and a missing character's counts, blank in the source, are 0.
- CastTracker.FramesMakeNoDifference: times are exact, so the floating-point drift of repeated additions is not covered.
- The evaluator, its arithmetic and its other functions; the host and every call to it; the rule controllers; settings; the regular-expression engine, number formatting, casing tables and JSON text; log lines; warming of patterns.
