# Verified model of the Swift interpreter's core algorithms

This project models the algorithmic core of a Swift interpreter written in Rust and proves what that core is for. It covers:

- the **regular-expression engine**: the pattern parser, the compiler to split/jump/save byte-code, the backtracking executor with its guard against empty loops, and the searches built on it;
- the **HTTP event contract**: the streaming handler that host threads push into, the sequential transports, and the wire codec that carries an event as JSON text with base-64 bodies;
- the **JSON** writer and parser, **base-64**, the **type-spelling** parser, **grapheme** segmentation and the **syntax-tree arena**;
- **value equality** over nested unordered collections, and **decimal arithmetic** on a 128-bit mantissa.

`dafny verify dfyconfig.toml` checks the whole project.

## How it is organised

Code that updates state in the source is a class or a method with loops here, and each such method is proved equal to a specification function or to a declarative predicate. The laws are lemmas about those specifications. Code that computes by recursion and matching is a function.

- `Regex*`: `RegexGrammar` is what the parser computes and `RegexParser` the parser itself; `RegexPattern` characterises the trees it produces, `RegexSpelling` says independently which texts spell a tree, `RegexReading` that the parser reads exactly these, and `RegexFaults` what a refusal means. `RegexClasses` says what classes and anchors match, `RegexLiteral` what plain texts do. `RegexCompiler` emits and back-patches; `RegexProgram` says what the code of a tree looks like. `RegexExec` is the executor, `RegexTermination` its measure. `RegexLanguage` gives patterns a meaning by derivations that does not mention programs, `RegexOrdered` lists the matches of a tree best first, and `RegexWays` does so for every pattern by skipping splits that are active; `RegexGuard`, `RegexPriority` and `RegexFirstWay` connect the three to the executor; `RegexPreference` says what priority means for repeats and alternatives. `RegexSearch` is the public interface and `RegexWidth` the patterns whose matches all have one length. `RegexLimits` follows the executor through lazy loops, `RegexLazy` and `RegexLaterLoop` say when it halts there, and `RegexWitness` holds the parsed patterns that show it.
- `StreamProtocol` is the concurrent protocol as a state machine over atomic steps under the queue locks, with its history; `StreamHandler` holds the classes whose methods take those steps. `HttpEvents`, `HttpOutcomes`, `HttpDraining` and `HttpTransports` are the sequential side; `EventCodec` is the codec and `EventReading` what it accepts and writes.
- `Json*`: `JsonText` and `JsonDocument` are the meaning of text, `JsonParser` and `JsonWriter` the two classes, `JsonCanon` sorting by key, `JsonCompact` text without blanks, `JsonRoundTrip` the law between them, `JsonSurrogates` the escapes the parser drops. `JsonGrammar` says independently which texts are documents, `JsonReading` that the parser reads exactly these, `JsonFaults` what a refusal means, and `JsonPretty` is the indented text.
- `Type*`: scanning, parsing, spelling, the round trip, and in `TypeMarks` where any text is divided.
- `Values` is equality, `ValueMeaning` what equal values have in common, `ValueLaws` its laws, `ValueOperators` the operators, `ValueLimits` exactly where the laws stop. `Decimal*`: arithmetic, its domain, division, rounding, and the forms of its text.
- `AstArena`; `Graphemes` and, place by place, `GraphemeCuts`; `Base64` and, bit by bit, `Base64Table`; and the small shared `Options`, `Digits`, `TextAt`, `WhiteSpace`.

Throughout, `Sane`, `Unrepeated`, `Guarded`, `Plain`, `Safe` and the like are predicates on the input a caller could evaluate before the call.

## What turned out false, and exactly when

- A lazy unbounded repeat whose body can match nothing is not protected by the executor's guard, which removes its key before the second branch. A pattern with such a loop between guarded nodes without anchors halts on every text if and only if what follows the loop need not consume a character, or what precedes it matches nothing on any text (`RegexLaterLoop.LaterLoopHaltsIff`). Where the loop comes first and its body takes no characters at all, it halts at a position if and only if the pattern matches there (`RegexLazy.EmptyBodyHaltsIff`): `()*?a` runs for ever wherever no `a` stands (`RegexWitness.EmptyLazyLoopDiverges`). Where the body may take characters, it can run for ever although there is a match: `(?:a|ab|)*?c` on `abc` (`RegexWitness.DivergesDespiteMatch`). All promises about searches hold for patterns without such a repeat, which always halt; a pattern whose lazy unbounded repeats have bodies that must consume is one of them (`RegexSyntax.ConsumingIsGuarded`).
- Matching a whole text accepts only the prefix match the executor prefers, so it misses matches: the alternation of `a` and `ab` on `ab` (`RegexWitness.WholeMatchIsIncomplete`). It finds a match if and only if that preferred match spans the text, and misses none when all matches of the pattern have one length (`RegexSearch.Regex.WholeMatch`).
- The type-spelling parser documents function types anywhere, but its bracket matcher counts the `>` of an arrow, so a type with an arrow inside brackets or parentheses is read back as a name. `TypeRoundTrip.RoundTrip` is an equivalence: a type is read back if and only if it has no such arrow.
- The JSON writer emits `\b` and `\f`, which the parser refuses. `JsonRoundTrip.RoundTrip` says that the text of a tree parses to that tree, or is refused, according to whether a string holds U+0008 or U+000C.
- An escaped surrogate pair, the only way section 7 of RFC 8259 has of escaping a character above U+FFFF, is read as no character at all, for each such character (`JsonSurrogates.PairReadsAsNothing`); an escaped code unit reads as its character if and only if it is not a surrogate (`JsonSurrogates.UnitReads`).
- Base-64 decoding ignores the bits that padding drops, so encoding undoes decoding if and only if those bits are zero (`Base64.EncodeUndoesDecode`).
- Adding zero to a decimal gives NaN when the exponents are more than 38 apart (`DecimalRange.ZeroIsNeutral`). Rounding up a decimal with more than 38 digits to drop gives zero (`DecimalRounding.RoundIsCorrect`). Division that stops for want of room for a digit compares a scaled remainder and can round the wrong way (`DecimalDivision.DigitsError`, `DecimalRange.QuotientRoundedUp`), or overflow while doubling it (`DecimalRange.DivAnswers`, `DecimalRange.QuotientOverflows`).
- Equality is symmetric at a dictionary if and only if no two of its entries are equal in both key and value, or there is a NaN or a handle in it (`ValueLimits.DictSymmetricIff`; `SetSymmetricIff` for sets). The program never builds a set with a repeat, but `Dictionary(uniqueKeysWithValues:)` keeps equal entries, so such dictionaries exist (`ValueLimits.RepeatsBreakSymmetry`). Operator `==` looks the other way round from value equality and refuses some dictionary that value equality accepts, if and only if a dictionary held as a value has two equal entries and there is no NaN and no handle (`ValueLimits.AgreementIff`).
- A value without repeats equals itself if and only if no NaN and no handle stands where equality looks (`ValueLaws.ReflexiveIff`); repeats can hide a NaN (`ValueLimits.RepeatHidesNaN`).

## Model

| member | source | states |
|---|---|---|
| RegexParser.Parser.constructor | crates/tswift-core/src/regex.rs:54-60 | The parser starts at the first character with group 0 counted |
| RegexParser.Parser.ParseAlternation | crates/tswift-core/src/regex.rs:216-227 | Branches between bars, as the grammar reads them; cursor and group count end where the grammar says, and an error is the grammar's error |
| RegexParser.Parser.ParseConcat | crates/tswift-core/src/regex.rs:229-242 | A run of items up to a bar, a closing parenthesis or the end |
| RegexParser.Parser.ParseRepeat | crates/tswift-core/src/regex.rs:244-277 | One atom with its quantifier and laziness mark, as the grammar reads them; what each quantifier means is said by `RegexReading.SuffixesAgree` |
| RegexParser.Parser.ParseCounted | crates/tswift-core/src/regex.rs:283-323 | Counted quantifiers, refused when reversed or over 1000, and the rewind that makes a stray brace literal |
| RegexParser.Parser.ParseInt | crates/tswift-core/src/regex.rs:325-343 | A run of digits as a number that saturates |
| RegexParser.Parser.ParseAtom | crates/tswift-core/src/regex.rs:345-371 | Dots, anchors, escapes, classes, groups and literals |
| RegexParser.Parser.ParseGroup | crates/tswift-core/src/regex.rs:373-397 | Groups numbered by their opening parentheses; a plain group takes no number |
| RegexParser.Parser.ParseClass | crates/tswift-core/src/regex.rs:399-434 | A character class, item by item, with ranges and negation |
| RegexParser.Parser.ClassChar | crates/tswift-core/src/regex.rs:436-454 | One element of a class, escapes included |
| RegexParser.Parser.ParseEscape | crates/tswift-core/src/regex.rs:456-475 | Escapes outside classes |
| RegexParser.ParsePattern | crates/tswift-core/src/regex.rs:54-71 | The whole parse, with the error for text left over |
| RegexPattern.ParsedIsWellFormed | crates/tswift-core/src/regex.rs:216-397 | Every parsed tree numbers its groups 1, 2, … in order of opening, keeps counts within 1000 with bounds in order, and has all its save slots in range of the group count |
| RegexPattern.ShownParses | crates/tswift-core/src/regex.rs:216-475 | Every tree of that kind has a spelling that parses to it: with the row above, those trees are exactly the ones patterns denote |
| RegexReading.ParsesIffSpells | crates/tswift-core/src/regex.rs:216-475 | A pattern parses to a tree if and only if it spells that tree, in any of the ways a tree can be spelled: every quantifier, escape, class and group form, and literals that only look like counts |
| RegexReading.SuffixesAgree | crates/tswift-core/src/regex.rs:244-323 | After any unit, `+` is `{1,}`, `*` is `{0,}`, a question mark is `{0,1}`, `{k}` is `{k,k}` and `{,k}` is `{0,k}`, each with or without the lazy mark, and the repeats they give are named |
| RegexReading.QuantifiedParses | crates/tswift-core/src/regex.rs:244-323 | A unit followed by any spelling of bounds within the limit parses to that unit repeated within those bounds |
| RegexFaults.FaultIsReal | crates/tswift-core/src/regex.rs:216-475 | Whenever a pattern is refused, what the error names is in the pattern: the reversed or too large count with its numbers, the odd group, the dash before a shorthand, the backslash at the end |
| RegexCompiler.Compiler.CompileNode | crates/tswift-core/src/regex.rs:511-545 | Appends exactly the code layout of the tree and touches nothing emitted before |
| RegexCompiler.Compiler.CompileAlt | crates/tswift-core/src/regex.rs:547-569 | A chain of splits whose branches all jump to the end |
| RegexCompiler.Compiler.CompileRepeat | crates/tswift-core/src/regex.rs:571-606 | The mandatory copies, then the loop or the optional copies |
| RegexCompiler.Compiler.CompileOptional | crates/tswift-core/src/regex.rs:588-603 | Optional copies whose splits, patched afterwards, all skip to the end |
| RegexCompiler.Compiler.PatchSplit | crates/tswift-core/src/regex.rs:608-618 | Fills in one split, body first when greedy and second when lazy, and nothing else |
| RegexCompiler.Compiler.CompileRegex | crates/tswift-core/src/regex.rs:72-75 | The whole program: the tree between the saves of group 0, then match |
| RegexExec.ExecInner | crates/tswift-core/src/regex.rs:639-725 | The in-place executor agrees with its meaning; a failed call leaves the save slots as they were, and every call leaves the active set as it was |
| RegexExec.Exec | crates/tswift-core/src/regex.rs:625-637 | The same from the start of the program with no split active |
| RegexExec.TestAt | crates/tswift-core/src/regex.rs:649-695 | One character test, anchor or word boundary at a position |
| RegexSyntax.ClassMatches | crates/tswift-core/src/regex.rs:727-743 | The item-by-item scan decides membership in the class; which characters a class has is said by `RegexClasses.ClassMatchesListed` |
| RegexClasses.RangeIsItsCharacters | crates/tswift-core/src/regex.rs:727-743 | A range anywhere in a class decides what listing its characters one by one would |
| RegexClasses.ShorthandsAre | crates/tswift-core/src/regex.rs:727-749 | The digit shorthand is the range from 0 to 9, the word and space shorthands are their sets, and the capital letters and the negating mark are complements |
| RegexClasses.ClassMatchesListed | crates/tswift-core/src/regex.rs:399-434 | A class as written in a pattern matches at a position if and only if the character there is among those listed once its ranges are written out, or is not when the class is negated |
| RegexClasses.RangeMatches | crates/tswift-core/src/regex.rs:399-434 | The pattern of one range matches exactly the characters from its first to its last |
| RegexClasses.AnchorsMatch | crates/tswift-core/src/regex.rs:649-695 | What the patterns `.`, `^`, `$`, `\b` and `\B` match, in terms of lines and words: inside a line, at its start, at its end, at an edge of a word and elsewhere |
| RegexLiteral.EscapedMatches | crates/tswift-core/src/regex.rs:216-725 | The pattern that spells a text character by character, escaped where needed, matches at a position if and only if the text stands there |
| RegexLiteral.GroupCaptures | crates/tswift-core/src/regex.rs:511-545 | The compiled program of a group around a plain text finds exactly the stretch where the text stands, as the match and as the group |
| WhiteSpace.SpacesAre | crates/tswift-core/src/regex.rs:727-743 | White space is the 25 characters with the Unicode property |
| RegexTermination.RankedHalts | crates/tswift-core/src/regex.rs:639-725 | The executor halts from every state of a ranked program, by input left, keys not yet active and a rank of the instruction |
| RegexTermination.CompiledIsRanked | crates/tswift-core/src/regex.rs:511-618 | Every program of a guarded pattern has such a rank; all jump targets and save slots are in bounds |
| RegexTermination.GuardedHalts | crates/tswift-core/src/regex.rs:625-725 | Every attempt with a guarded pattern halts, on every text, from every position |
| RegexSyntax.ConsumingIsGuarded | crates/tswift-core/src/regex.rs:706-720 | Patterns whose unbounded repeats, or only the lazy ones, have bodies that must consume are guarded, so everything said of guarded patterns holds for them |
| RegexLanguage.DerivationIsSound | crates/tswift-core/src/regex.rs:696-704 | A derivation moves forward and leaves each group unset or ordered, for all patterns |
| RegexLanguage.MatchIsDerivation | crates/tswift-core/src/regex.rs:511-725 | Whatever a run returns is a derivation of the pattern, captures included, for all patterns |
| RegexGuard.GuardLosesNothing | crates/tswift-core/src/regex.rs:706-720 | If some path accepts, the run that skips active splits still succeeds: the guard never loses a match |
| RegexGuard.DerivationAccepts | crates/tswift-core/src/regex.rs:511-618 | Every derivation of a node is traced by a path through its code |
| RegexGuard.RunDecidesLanguage | crates/tswift-core/src/regex.rs:511-725 | A halting run succeeds if and only if the pattern has a match at that position: compiling preserves meaning |
| RegexOrdered.ResultDerives | crates/tswift-core/src/regex.rs:511-606 | Everything ordered backtracking lists is a derivation |
| RegexOrdered.DerivationListed | crates/tswift-core/src/regex.rs:511-606 | When unbounded repeats consume, ordered backtracking lists every derivation |
| RegexPriority.GuardIsIdle | crates/tswift-core/src/regex.rs:706-720 | Where the active splits are hopeless, the guarded executor is plain backtracking |
| RegexPriority.NodeFirst | crates/tswift-core/src/regex.rs:511-606 | Running a node's code is trying its results in priority order on what follows |
| RegexPriority.RunReturnsFirstResult | crates/tswift-core/src/regex.rs:538-725 | When unbounded repeats consume, the executor returns exactly the first result of ordered backtracking over the tree, end and all captures |
| RegexPreference.RepeatOrder | crates/tswift-core/src/regex.rs:571-618 | The results of a repeated character test are all numbers of rounds from the lower bound to the most that text and bound allow, the most first when greedy and the fewest first when lazy |
| RegexPreference.RepeatRun | crates/tswift-core/src/regex.rs:571-618 | The compiled program of such a repeat therefore ends after the most rounds when greedy, after the lower bound when lazy, and fails exactly when there are fewer |
| RegexPreference.FirstBranchWins | crates/tswift-core/src/regex.rs:547-569 | An alternation finds what its leftmost branch with a match finds |
| RegexWays.WayDerives | crates/tswift-core/src/regex.rs:706-720 | Every way across a node, active splits skipped, is a derivation of it, for all patterns |
| RegexWays.WayMoves | crates/tswift-core/src/regex.rs:706-720 | Every way moves forward and only adds active splits; across a node that cannot be fallen through it takes a character or enters a split |
| RegexFirstWay.NodeRuns | crates/tswift-core/src/regex.rs:511-606 | Running a guarded node's code is trying the ways across it in order on what follows, each with its own active splits |
| RegexFirstWay.RunReturnsFirstWay | crates/tswift-core/src/regex.rs:538-725 | For every guarded pattern, loops over empty bodies included, the executor returns exactly the first way across it, end and all captures |
| RegexFirstWay.WaysDecideLanguage | crates/tswift-core/src/regex.rs:706-720 | There is a way across a guarded pattern if and only if it has a match there: skipping active splits loses none |
| RegexFirstWay.FirstWayIsFirstResult | crates/tswift-core/src/regex.rs:706-720 | When unbounded repeats consume, the first way is the first result of plain ordered backtracking, captures included |
| RegexSearch.Regex.Compile | crates/tswift-core/src/regex.rs:54-80 | Fails exactly when the pattern does not parse, and otherwise gives the compiled pattern |
| RegexSearch.Regex.FindAt | crates/tswift-core/src/regex.rs:88-96 | The match at the smallest start from the given index, if and only if one exists |
| RegexSearch.Regex.FindAll | crates/tswift-core/src/regex.rs:124-138 | A chain of leftmost matches that leaves none over |
| RegexSearch.Regex.PrefixMatch | crates/tswift-core/src/regex.rs:104-111 | A match at the start, if and only if one exists |
| RegexSearch.Regex.WholeMatch | crates/tswift-core/src/regex.rs:114-121 | Sound always; finds a match if and only if the first way across the pattern spans the text, which is the highest-priority result when repeats consume, and any match when all matches have one length |
| RegexWidth.MatchHasWidth | crates/tswift-core/src/regex.rs:114-121 | All matches of a pattern with a width take that many characters, on every text |
| RegexSearch.MatchIsGenuine | crates/tswift-core/src/regex.rs:140-148 | The captures returned are those of a derivation, of the first way across a guarded pattern, and of the first result where repeats consume |
| RegexSearch.GroupsInside | crates/tswift-core/src/regex.rs:140-148 | Every group that took part starts at or before its end, inside the whole match |
| RegexSearch.ChainIncreases | crates/tswift-core/src/regex.rs:124-138 | Matches increase, do not overlap, and never start at the same place |
| RegexSearch.ChainIsComplete | crates/tswift-core/src/regex.rs:124-138 | Every position where the pattern matches starts a listed match or lies inside one |
| RegexLimits.LazyLoopNeverFails | crates/tswift-core/src/regex.rs:706-720 | A lazy loop over a body that falls through never reports failure |
| RegexLimits.LazyLoopDiverges | crates/tswift-core/src/regex.rs:706-720 | For every such loop at the start of a pattern, whatever follows it, the executor never answers where there is no match |
| RegexLaterLoop.LaterLoopHaltsIff | crates/tswift-core/src/regex.rs:706-720 | With such a loop between guarded and test-free nodes, the executor halts on every text from every position if and only if what follows the loop need not consume a character or what precedes it matches nothing on any text |
| RegexLaterLoop.ReachedDiverges | crates/tswift-core/src/regex.rs:706-720 | Wherever what precedes such a loop matches and the whole pattern does not, the executor runs for ever |
| RegexLaterLoop.LazyLoopHaltsIff | crates/tswift-core/src/regex.rs:706-720 | When the loop comes first, that is if and only if what follows it need not consume a character |
| RegexLazy.EmptyBodyHaltsIff | crates/tswift-core/src/regex.rs:706-720 | When the body takes no characters, the executor halts from a position if and only if the pattern matches there |
| RegexLazy.EndDiverges | crates/tswift-core/src/regex.rs:706-720 | When what follows must consume, every attempt at the end of any text runs for ever |
| RegexWitness.EmptyLazyLoopDiverges | crates/tswift-core/src/regex.rs:706-720 | The pattern `()*?a`, as parsed, halts at a position of a text if and only if an `a` stands there |
| RegexWitness.DivergesDespiteMatch | crates/tswift-core/src/regex.rs:706-720 | A parsed pattern that matches a text and yet never halts on it |
| RegexWitness.WholeMatchIsIncomplete | crates/tswift-core/src/regex.rs:114-121 | The pattern that parses to the alternation of `a` and `ab` can match all of `ab`, but its preferred result stops after `a` |
| StreamHandler.TaskQueue.Push | crates/tswift-ffi/src/http.rs:207-226 | Accepts until a terminal event has been pushed, then refuses |
| StreamHandler.TaskQueue.ForceCancel | crates/tswift-ffi/src/http.rs:234-247 | Replaces what is queued by one cancelled event, unless a terminal was pushed |
| StreamHandler.TaskQueue.NextEventTimeout | crates/tswift-ffi/src/http.rs:256-266 | Pops the front event, or nothing when the deadline passed on an empty queue |
| StreamHandler.StreamingHostHttpHandler.Start | crates/tswift-ffi/src/http.rs:394-428 | Takes the start step; the token is fresh and registered before the request text is checked |
| StreamHandler.StreamingHostHttpHandler.NextEvent | crates/tswift-ffi/src/http.rs:444-498 | Takes the steps of one poll under any host pushes while it blocks and after its deadline, and hands out one event |
| StreamHandler.StreamingHostHttpHandler.Cancel | crates/tswift-ffi/src/http.rs:506-527 | Takes the cancel step, which does nothing to a dead handle |
| StreamHandler.StreamingHostHttpHandler.Perform | crates/tswift-ffi/src/http.rs:354-382 | Once the handle's last event has come, its outcome; a response is then all that the host sent |
| StreamHandler.StreamingHostHttpHandler.DropTokens | crates/tswift-ffi/src/http.rs:330-349 | Drops the handler and frees every token ever issued, one by one in order |
| StreamProtocol.StepKeeps | crates/tswift-ffi/src/http.rs:207-268 | Every step, by any thread, keeps the protocol invariant |
| StreamProtocol.RunDelivers | crates/tswift-ffi/src/http.rs:444-498 | In every interleaving, a handle has been given a first-in first-out prefix of the accepted pushes, then at most one terminal event (the host's own, cancelled or timed out), then sentinels only |
| StreamProtocol.ClosedQueueNeverBlocks | crates/tswift-ffi/src/http.rs:207-268 | A pending task whose terminal was pushed has a non-empty queue, so no poll of it can time out |
| StreamProtocol.LatePushIsIgnored | crates/tswift-ffi/src/http.rs:207-226 | Host pushes on a dead handle's token change nothing |
| StreamProtocol.NothingLost | crates/tswift-ffi/src/http.rs:444-498 | A handle that ended with the host's own terminal was given everything the host pushed |
| StreamProtocol.TokensFreedOnce | crates/tswift-ffi/src/http.rs:330-349 | At every moment of a run that frees tokens one by one, each token ever issued is live or freed, and that once: live until the drop, freed when none is left |
| StreamProtocol.FreeingEnds | crates/tswift-ffi/src/http.rs:330-349 | After the drop each step frees one more token and issues none, so freeing ends |
| StreamProtocol.CancelIsNext | crates/tswift-ffi/src/http.rs:506-527 | Cancelling a live handle empties its queue but for the cancelled event, and no step but the handle's own poll changes that |
| StreamProtocol.CancelHolds | crates/tswift-ffi/src/http.rs:506-527 | In every run, after a cancel the next event the handle is given is the cancelled one, whatever steps come between |
| HttpOutcomes.DrainOutcome | crates/tswift-core/src/http.rs:128-154 | Draining the events made from a one-shot outcome gives the outcome back |
| HttpOutcomes.DrainChunked | crates/tswift-core/src/http.rs:536-553 | Draining a chunked route gives its chunks joined, or its failure |
| HttpOutcomes.DrainNetwork | crates/tswift-cli/src/nethttp.rs:124-171 | Draining a network response gives all bytes up to the end of the stream, or its failure |
| HttpOutcomes.ReadSizesDoNotMatter | crates/tswift-cli/src/nethttp.rs:148-170 | Two ways of cutting the same bytes into reads drain to the same outcome |
| HttpDraining.DrainMeans | crates/tswift-core/src/stdlib.rs:226-256 | For any sequence of events, the first terminal event decides: a failure is the outcome, and after the end of the response the outcome has the status and headers of the last response before it and all chunks joined |
| HttpDraining.DrainUnended | crates/tswift-core/src/stdlib.rs:226-256 | Events without a terminal one drain to the failure of an exhausted handle |
| HttpDraining.OutcomeIsLean | crates/tswift-core/src/http.rs:128-154 | An outcome turns into at most three events and never into an empty chunk; an unavailable transport is told as unsupported |
| HttpTransports.Transport.Start | crates/tswift-core/src/http.rs:204-220 | Registers exactly the planned events under a fresh handle, or reports why not and leaves the rest alone; says when a handle number is used up |
| HttpTransports.Transport.Open | crates/tswift-core/src/http.rs:586-612 | Chunked routes come first, then regular routes, then the unknown host; of each kind the first that serves the request; an unavailable outcome is reported, not queued |
| HttpTransports.Transport.NextEvent | crates/tswift-core/src/http.rs:231-247 | The next planned event; the entry goes with the terminal one; sentinels for dead handles |
| HttpTransports.Transport.Advance | crates/tswift-cli/src/nethttp.rs:124-171 | One step of the stream state machine delivers the first of the events left and leaves the rest |
| HttpTransports.Transport.Cancel | crates/tswift-core/src/http.rs:261-275 | Leaves one cancelled event for the handle and all other handles as they were |
| HttpTransports.Transport.PerformHttp | crates/tswift-core/src/stdlib.rs:226-256 | The drain loop gives the outcome a caller should see, for the mock that of the first route that serves the request, and keeps all other handles |
| HttpTransports.DrainIsExpected | crates/tswift-core/src/http.rs:572-612 | For all three transports, draining the planned events is that outcome |
| HttpTransports.RouteFound | crates/tswift-core/src/http.rs:572-584 | The route found is the one at the smallest index whose URL equals the request's and whose verb does up to ASCII case, and none is found if and only if there is no such index |
| HttpTransports.ChunkedFound | crates/tswift-core/src/http.rs:586-600 | The same of chunked routes |
| HttpTransports.MockAnswersFirst | crates/tswift-core/src/http.rs:572-612 | The outcome of a mock request is that of the first chunked route that serves it, else of the first regular route, else the unknown host, and each exactly then |
| HttpTransports.HandlesAreIndependent | crates/tswift-core/src/http.rs:555-570 | What a handle is sent depends only on the operations on that handle |
| HttpTransports.PollsDeliver | crates/tswift-core/src/http.rs:555-570 | Polling a live handle gives its events in order and then sentinels |
| HttpTransports.CancelDelivers | crates/tswift-core/src/http.rs:622-632 | After a cancel, one cancelled event and then sentinels, whatever other handles do |
| JsonParser.Parser.ParseString | crates/tswift-core/src/json.rs:262-296 | Reads a string literal and its escapes, or the right error |
| JsonParser.Parser.ParseNumber | crates/tswift-core/src/json.rs:319-345 | Reads integers in the 64-bit range; a number with a point or an exponent keeps its text if it has the form of a float, and is refused otherwise |
| JsonParser.Parser.ParseArray | crates/tswift-core/src/json.rs:241-260 | Reads an array as the grammar does |
| JsonParser.Parser.ParseObject | crates/tswift-core/src/json.rs:214-239 | Reads an object as the grammar does, entries in order |
| JsonParser.Parser.ParseValue | crates/tswift-core/src/json.rs:201-212 | Reads any value as the grammar does |
| JsonParser.Parse | crates/tswift-core/src/json.rs:163-175 | The whole parse, with the error for text left over |
| JsonDocument.LayoutParses | crates/tswift-core/src/json.rs:163-353 | A document laid out in any style parses to its tree if and only if all its strings can be read |
| JsonReading.ParsesIffDocument | crates/tswift-core/src/json.rs:163-353 | A text parses to a tree if and only if it is a document of that tree: any of the four blanks between any two tokens, any escapes, any number form, first key and all |
| JsonFaults.FaultIsReal | crates/tswift-core/src/json.rs:163-353 | Whenever a text is refused, what the error names is in the text: a place where a value or a key is awaited and none begins, a string without its colon, a value without its comma, an unknown escape, a run that is no number, text left over |
| JsonReading.BlanksAre | crates/tswift-core/src/json.rs:195-199 | Skipping stops at a place exactly when all up to it are blanks and it is not |
| JsonReading.FloatIs | crates/tswift-core/src/json.rs:319-345 | The texts kept as floating-point numbers are those of the standard library's grammar: digits on at least one side of the point, and an exponent with digits |
| JsonWriter.Writer.WriteString | crates/tswift-core/src/json.rs:139-160 | Appends the quoted and escaped string |
| JsonWriter.Writer.WriteArray | crates/tswift-core/src/json.rs:68-95 | Appends a layout of the array, compact or indented |
| JsonWriter.Writer.WriteObject | crates/tswift-core/src/json.rs:96-130 | Appends a layout of the object, its entries sorted by key when asked |
| JsonWriter.Writer.WriteValue | crates/tswift-core/src/json.rs:59-131 | Appends a layout of any tree and keeps what was written |
| JsonPretty.LayoutIsText | crates/tswift-core/src/json.rs:59-137 | Whatever is laid out in the pretty style is one text: each element on a line of its own, two blanks a level, the closing bracket on its own line, a blank on both sides of the colon, and nothing inside empty brackets |
| JsonPretty.EscapesAre | crates/tswift-core/src/json.rs:139-160 | The writer spells seven characters by a letter, other control characters by four hexadecimal digits in capitals, and all others by themselves |
| JsonCanon.SortIsStable | crates/tswift-core/src/json.rs:97-104 | Sorting orders the keys and keeps the entries of equal keys in their order |
| JsonCanon.KeyLeIs | crates/tswift-core/src/json.rs:97-104 | The order of keys: a prefix comes first, and otherwise the first place where two keys differ decides |
| JsonCanon.CanonSorts | crates/tswift-core/src/json.rs:97-104 | Sorted trees are sorted at every level and sorting them again changes nothing |
| JsonRoundTrip.SpeakableMeans | crates/tswift-core/src/json.rs:139-160 | A string can be read back if and only if it holds neither U+0008 nor U+000C |
| JsonRoundTrip.RoundTrip | crates/tswift-core/src/json.rs:59-160 | Parsing the written text gives the same tree, sorted when keys are sorted, in all four formats, unless a string cannot be read, and then the error |
| JsonRoundTrip.WriteThenParse | crates/tswift-core/src/json.rs:51-175 | The same of the two methods run one after the other |
| JsonSurrogates.UnitReads | crates/tswift-core/src/json.rs:262-296 | An escaped code unit reads as its character, or as nothing if and only if it is a surrogate |
| JsonSurrogates.PairReadsAsNothing | crates/tswift-core/src/json.rs:262-296 | For every character above U+FFFF, its escaped surrogate pair adds nothing to the string read, wherever it stands |
| JsonSurrogates.PairIsLost | crates/tswift-core/src/json.rs:262-296 | A string literal that spells one such character by its pair is read as the empty string |
| JsonCompact.CompactParses | crates/tswift-core/src/json.rs:163-353 | Text built without blanks parses back for any faithful spelling of characters |
| Base64.Encode | crates/tswift-core/src/base64.rs:12-36 | Three bytes as four characters, padded (section 4 of RFC 4648) |
| Base64.Decode | crates/tswift-core/src/base64.rs:41-85 | Blanks skipped, groups of four, padding only at the end, everything else refused |
| Base64.DecodeUndoesEncode | crates/tswift-core/src/base64.rs:12-85 | Decoding undoes encoding for all bytes |
| Base64.EncodeUndoesDecode | crates/tswift-core/src/base64.rs:41-85 | Encoding a decoded text gives the text without blanks if and only if its dropped bits are zero |
| Base64.DroppedBits | crates/tswift-core/src/base64.rs:41-85 | Two texts that decode to the same byte |
| Base64Table.LettersAre | crates/tswift-core/src/base64.rs:12-58 | The alphabet: each letter stands for its place, and no other character for anything (section 4 of RFC 4648) |
| Base64Table.LettersAreBits | crates/tswift-core/src/base64.rs:12-36 | The letters are the bits of the bytes in order, the highest first, cut into sixes; there are four characters for each three bytes begun |
| Base64Table.BytesAreBits | crates/tswift-core/src/base64.rs:41-85 | Whatever decodes, the bytes are the bits of its letters in order, cut into eights |
| Base64Table.BlanksVanish | crates/tswift-core/src/base64.rs:41-85 | White space anywhere between characters makes no difference |
| Base64Table.StrangersRefused | crates/tswift-core/src/base64.rs:41-85 | A character that is no letter, no padding and no white space makes a text malformed |
| EventCodec.Escape | crates/tswift-core/src/result_json.rs:70-84 | Escapes character by character |
| EventCodec.HostEscapeIsFaithful | crates/tswift-core/src/result_json.rs:70-84 | Every escape reads back as its character in the JSON parser (section 7 of RFC 8259) |
| EventReading.EscapesAre | crates/tswift-core/src/result_json.rs:70-84 | Five characters are spelled by a letter, other control characters by four hexadecimal digits, and all others by themselves |
| EventCodec.EventComesBack | crates/tswift-core/src/http.rs:330-384 | The decoder finds in an event's tree the event it was made from |
| EventCodec.Encode | crates/tswift-core/src/http.rs:291-324 | Writes the compact text of the event's tree |
| EventCodec.Decode | crates/tswift-core/src/http.rs:330-384 | Reads an event from text, with its defaults and refusals |
| EventCodec.DecodeUndoesEncode | crates/tswift-core/src/http.rs:291-384 | The text of any event decodes to that event, through escaping, JSON and base-64 |
| EventCodec.SendAndReceive | crates/tswift-core/src/http.rs:291-384 | The same of the two methods run one after the other |
| EventCodec.EventTextIsClear | crates/tswift-core/src/http.rs:291-324 | No encoded event holds a control character, so none is cut short as a C string |
| EventReading.DecodesIffTells | crates/tswift-core/src/http.rs:330-384 | The decoder gives an event if and only if the tree tells of it: the first entry under each key, headers in pairs, and the defaults where code, message or headers are missing |
| EventReading.RefusesIffLacks | crates/tswift-core/src/http.rs:330-384 | The decoder refuses a tree for a reason if and only if the tree lacks what the reason names |
| EventReading.EncodesAsWire | crates/tswift-core/src/http.rs:291-324 | The text of every event, letter by letter |
| TypeScan.FindArrow | crates/tswift-ast/src/type_repr.rs:243-262 | The position of the first arrow outside brackets |
| TypeScan.TopLevelIndices | crates/tswift-ast/src/type_repr.rs:267-287 | The positions of a separator outside brackets, arrows skipped |
| TypeScan.Split | crates/tswift-ast/src/type_repr.rs:290-300 | The trimmed pieces between separators |
| TypeScan.Inner | crates/tswift-ast/src/type_repr.rs:318-337 | The text between delimiters that close exactly at the end, arrows counted as closing |
| TypeRepr.CommasShorter | crates/tswift-ast/src/type_repr.rs:290-305 | The pieces of a bracketed text are strictly shorter than the whole, which makes parsing terminate |
| TypeRoundTrip.RoundTrip | crates/tswift-ast/src/type_repr.rs:73-159 | Parsing the spelling of a type, with or without labels in its tuples and parameter lists, gives the shape of the type without the labels back if and only if no arrow stands inside square brackets or parentheses |
| TypeRoundTrip.LabelGoes | crates/tswift-ast/src/type_repr.rs:340-346 | A label and its colon are dropped and the type after them is kept |
| TypeRoundTrip.OptionalNameIs | crates/tswift-ast/src/type_repr.rs:144-152 | The names read as optionals: the name itself, alone or after a module's name and a point |
| TypeRoundTrip.SpacesAround | crates/tswift-ast/src/type_repr.rs:73-76 | White space around a spelling makes no difference |
| TypeRoundTrip.SpacedGeneric | crates/tswift-ast/src/type_repr.rs:350-366 | White space between a generic name and its arguments makes no difference to the shape |
| TypeScan.TrimIs | crates/tswift-ast/src/type_repr.rs:73-76 | Trimming takes away white space at both ends and leaves none there |
| TypeMarks.HitsAre | crates/tswift-ast/src/type_repr.rs:243-287 | In any text, the scan finds exactly the places where the separator or the arrow stands with as many brackets closed as opened before it |
| TypeMarks.ArrowIsFirst | crates/tswift-ast/src/type_repr.rs:243-262 | In any text, a function type is divided at the first such arrow |
| TypeMarks.LabelIsFirst | crates/tswift-ast/src/type_repr.rs:340-346 | In any text, what is dropped is what stands before the first such colon |
| TypeMarks.KeyIsFirst | crates/tswift-ast/src/type_repr.rs:104-123 | Square brackets hold a dictionary if and only if there is such a colon inside, and the first one divides key and value |
| TypeMarks.BareParameter | crates/tswift-ast/src/type_repr.rs:368-380 | A single parameter may stand without parentheses |
| TypeRoundTrip.ArrayOfFunctions | crates/tswift-ast/src/type_repr.rs:318-337 | Every array of functions over names is read as a name |
| ValueLaws.Refl | crates/tswift-core/src/value.rs:360-441 | Every value with no NaN and no handle where equality looks equals itself, repeats or not |
| ValueLaws.ReflexiveIff | crates/tswift-core/src/value.rs:360-441 | A value without repeats equals itself if and only if no NaN and no handle stands where equality looks; which values are equal is said by `ValueMeaning.EqualIsSameMeaning` |
| ValueLaws.Sym | crates/tswift-core/src/value.rs:360-441 | Equality is symmetric on values whose sets and dictionaries hold no two equal elements or entries |
| ValueLaws.Trans | crates/tswift-core/src/value.rs:360-441 | Equality is transitive on all values |
| ValueMeaning.EqualIsSameMeaning | crates/tswift-core/src/value.rs:360-441 | Values without repeats are equal if and only if they stand for the same thing (tuple labels dropped, strings and substrings as their text, slices as their windows, one zero, sets as sets, dictionaries as sets of bindings, enumeration cases by type, name and payload) and hold no NaN and no handle where equality looks |
| ValueOperators.OperatorsAgree | crates/tswift-core/src/ops.rs:668-722 | Operators `==` and `!=` on sets, dictionaries and tuples agree with value equality on values without repeats |
| ValueOperators.SetsPairUp | crates/tswift-core/src/value.rs:415 | Sets without repeats are equal if and only if their elements pair up one to one as equals |
| ValueOperators.SetOrder | crates/tswift-core/src/value.rs:415 | The order of a set's elements does not matter, repeats or not |
| ValueOperators.DictOrder | crates/tswift-core/src/value.rs:409-413 | The order of a dictionary's entries does not matter, repeats or not |
| ValueOperators.DictBinds | crates/tswift-core/src/value.rs:409-413 | In equal dictionaries, equal keys are bound to equal values |
| ValueOperators.SubstringWindow | crates/tswift-core/src/value.rs:371-391 | A substring has as many characters as its window and equals the string it spells, both ways |
| ValueLimits.NotReflexive | crates/tswift-core/src/value.rs:360-441 | A value without repeats that holds a NaN or a handle anywhere equality looks is unequal to itself |
| ValueLimits.RepeatHidesNaN | crates/tswift-core/src/value.rs:409-415 | A set that holds a NaN deep inside and equals itself, because of an equal entry kept twice |
| ValueLimits.SetSymmetricIff | crates/tswift-core/src/value.rs:415 | Whatever a set equals is equal to it as well, if and only if its elements are distinct or there is a NaN or a handle in it |
| ValueLimits.DictSymmetricIff | crates/tswift-core/src/value.rs:409-413 | Whatever a dictionary equals is equal to it as well, if and only if no two entries are equal in both key and value or there is a NaN or a handle in it |
| ValueLimits.RepeatsBreakSymmetry | crates/tswift-core/src/interp.rs:5825-5843 | For any entry and any other, a dictionary with the first kept twice and one with both are equal one way only; the same for sets |
| ValueLimits.AgreementIff | crates/tswift-core/src/ops.rs:709-722 | On any dictionary with repeats at most in itself and in the dictionaries it holds as values, operator `==` accepts what value equality accepts, if and only if none of those held has two equal entries or there is a NaN or a handle in it |
| ValueLimits.RepeatsBreakAgreement | crates/tswift-core/src/ops.rs:709-722 | Two dictionaries, each holding a dictionary with a repeat or another, that are equal as values and not by the operator |
| Decimal.Normalized | crates/tswift-core/src/decimal.rs:62-75 | The loop moves all trailing zeros into the exponent |
| Decimal.NormalValue | crates/tswift-core/src/decimal.rs:62-75 | Normalising keeps the number |
| Decimal.NormalIsUnique | crates/tswift-core/src/decimal.rs:62-75 | Two normal forms stand for the same number if and only if they are identical |
| Decimal.AlignedValues | crates/tswift-core/src/decimal.rs:102-112 | Aligned mantissas stand for the same two numbers |
| Decimal.AddIsExact | crates/tswift-core/src/decimal.rs:114-125 | A sum that is not NaN is the exact sum in normal form |
| Decimal.SubIsExact | crates/tswift-core/src/decimal.rs:127-129 | A difference that is not NaN is the exact difference |
| Decimal.MulIsExact | crates/tswift-core/src/decimal.rs:131-142 | A product is NaN exactly when its mantissa or exponent does not fit, and otherwise the exact product |
| Decimal.CompareIsTrue | crates/tswift-core/src/decimal.rs:193-196 | Whenever two decimals can be aligned, the order found is the order of the numbers |
| DecimalRange.AlignIs | crates/tswift-core/src/decimal.rs:102-112 | Alignment succeeds if and only if the exponents are at most 38 apart and both numbers fit at the lower one |
| DecimalRange.AddAnswers | crates/tswift-core/src/decimal.rs:114-125 | A sum is a number if and only if, besides, the exact sum fits |
| DecimalRange.ZeroIsNeutral | crates/tswift-core/src/decimal.rs:114-125 | Adding zero changes nothing if and only if zero can be aligned with the number, and gives NaN otherwise |
| DecimalRange.DivAnswers | crates/tswift-core/src/decimal.rs:144-188 | For all operands, exactly when a quotient overflows and exactly when it is NaN |
| DecimalRange.QuotientOverflows | crates/tswift-core/src/decimal.rs:178-182 | Two numbers whose quotient overflows while its remainder is doubled |
| DecimalRange.QuotientRoundedUp | crates/tswift-core/src/decimal.rs:165-188 | The largest mantissa divided by seven is rounded up although the remainder is one |
| DecimalDivision.Divide | crates/tswift-core/src/decimal.rs:144-188 | The loop and the rounding compute the specified quotient |
| DecimalDivision.DigitsKeep | crates/tswift-core/src/decimal.rs:156-177 | Numerator times a power of ten is digits times denominator plus remainder, at every stop |
| DecimalStops.DigitsStop | crates/tswift-core/src/decimal.rs:156-177 | Long division stops only for the reason it names: no remainder, 38 digits, no room for ten times the remainder, or no room for the next digit |
| DecimalDivision.DigitsError | crates/tswift-core/src/decimal.rs:156-185 | Exact without a remainder, within half a digit with ties up at the precision or remainder limit, and within one digit when the next digit had no room, with the exact condition for half a digit |
| DecimalDivision.DivError | crates/tswift-core/src/decimal.rs:144-188 | The same as an error bound on the quotient as a number |
| DecimalDivision.RoundedTheWrongWay | crates/tswift-core/src/decimal.rs:171-188 | A division that rounds up although the remainder is below half |
| DecimalRounding.Rounded | crates/tswift-core/src/decimal.rs:224-257 | The method computes the specified rounding |
| DecimalRounding.RoundIsOnGrid | crates/tswift-core/src/decimal.rs:224-257 | The result is a whole number of units of the last kept digit |
| DecimalRounding.RoundIsCorrect | crates/tswift-core/src/decimal.rs:224-257 | That whole number is the one the mode asks for, if and only if rounding up does not drop more than 38 digits of a number other than zero |
| DecimalRounding.RoundTwice | crates/tswift-core/src/decimal.rs:224-257 | Rounding is idempotent |
| DecimalRounding.RoundIsMonotone | crates/tswift-core/src/decimal.rs:224-257 | Rounding keeps the order of numbers |
| DecimalRounding.RoundError | crates/tswift-core/src/decimal.rs:224-257 | Half a unit for plain and bankers; down and up bound the magnitude from below and above |
| DecimalRounding.TiesAre | crates/tswift-core/src/decimal.rs:244-250 | Ties go away from zero in plain rounding and to the even digit in bankers rounding |
| DecimalText.ParseDecimal | crates/tswift-core/src/decimal.rs:292-330 | Sign, digits and one point, refused on anything else and on overflow |
| DecimalText.ParseUndoesPrint | crates/tswift-core/src/decimal.rs:260-330 | Parsing the printed text of a normal decimal gives it back if and only if it is a number whose mantissa with its zeros written out fits |
| DecimalForms.ParsesIffSpells | crates/tswift-core/src/decimal.rs:292-330 | A text parses to a decimal if and only if, white space around it apart, it is an optional sign and at least one digit with at most one point, the digits fit, and the decimal is theirs |
| DecimalPrinting.PrintsAs | crates/tswift-core/src/decimal.rs:260-289 | The printed text digit by digit: a minus sign for a negative number, no leading zero but a lone one, as many digits after the point as a negative exponent asks for, and no point without them |
| DecimalPrinting.ZeroPrints | crates/tswift-core/src/decimal.rs:260-289 | Zero alone prints as `0`, and only what is not a number as `NaN` |
| AstArena.Ast.constructor | crates/tswift-ast/src/lib.rs:329-344 | The arena starts with the source-file node |
| AstArena.Ast.Add | crates/tswift-ast/src/lib.rs:352-366 | Appends one node without children under the next id |
| AstArena.Ast.AppendChild | crates/tswift-ast/src/lib.rs:369-372 | Appends one child to one node and changes nothing else |
| AstArena.Ast.AddWithChildren | crates/tswift-ast/src/lib.rs:375-392 | Appends one node with children and keeps an acyclic arena acyclic |
| AstArena.Ast.SetChildren | crates/tswift-ast/src/lib.rs:395-397 | Replaces one child list and changes nothing else |
| AstArena.Ast.CloneSubtree | crates/tswift-ast/src/lib.rs:426-440 | Terminates on acyclic arenas; the copy stands for the same tree, is made of exactly as many new nodes as the tree has, all children of new nodes are new, and every old node is unchanged |
| AstArena.RankDoesNotMatter | crates/tswift-ast/src/lib.rs:426-440 | The tree of a node does not depend on the order that shows the arena acyclic |
| Graphemes.CountRun | crates/tswift-core/src/grapheme.rs:46-57 | The length of the run of regional indicators that ends a cluster |
| Graphemes.Segment | crates/tswift-core/src/grapheme.rs:18-64 | The nested loops compute the specified clusters |
| Graphemes.ClusterFrom | crates/tswift-core/src/grapheme.rs:24-60 | The inner loop stops exactly where the cluster that starts there ends |
| Graphemes.ClustersMakeText | crates/tswift-core/src/grapheme.rs:18-64 | Clusters concatenate to the text |
| Graphemes.ClusterNotEmpty | crates/tswift-core/src/grapheme.rs:18-64 | No cluster is empty |
| Graphemes.WindowClusters | crates/tswift-core/src/grapheme.rs:18-64 | Segmenting the text of any window of clusters gives that window back |
| Graphemes.ClustersOfTwo | crates/tswift-core/src/grapheme.rs:18-64 | Segmentation distributes over concatenation if and only if the seam does not join |
| Graphemes.FlagsPair | crates/tswift-core/src/grapheme.rs:46-57 | A run of regional indicators pairs up into flags (the subset of section 3.1.1 of UAX #29 that the code follows) |
| GraphemeCuts.CutIff | crates/tswift-core/src/grapheme.rs:18-64 | A text is cut at a place if and only if the characters around it do not stick together: no line end of two characters, no mark or joiner after the place, no joiner before it, and no odd run of regional indicators before another one |
| GraphemeCuts.MarksAre | crates/tswift-core/src/grapheme.rs:70-88 | The combining marks and variation selectors are those of a table of ranges |

## Left out

- Unicode tables: which characters are alphanumeric is a field of the searched text, since the standard library's table is not part of this model.
- Stack depth and overflow of 64-bit counters: the executor's recursion and the handle counters are unbounded here.
- Regex equality and the pattern text kept beside the program: they would only add easy members.
- RegexSearch.Regex.WholeMatch: for a pattern whose matches vary in length, no answer does not mean that no match spans the text, because the code looks at the preferred match only.
- RegexLaterLoop.LaterLoopHaltsIff: the loop is an item of the whole pattern and its body can be fallen through without passing a test; for a loop inside a group or another repeat, or one whose body falls through only under an anchor, one direction is proved (LazyLoopNeverFails, LazyLoopDiverges).
- TypeScan.FindArrow: positions count characters where the source counts bytes; callers see only the pieces of text between them, which are the same.
- JSON numbers with a fraction or an exponent: they keep their text, because parsing and printing of doubles is floating point.
- Error messages: each message is one constructor of an error type, and numbers printed inside a message are not modelled.
- Raw pointers, C strings, reference counts and condition variables: tokens are numbers, each method takes its steps under the lock, and a wake-up or a timeout is decided by what has arrived.
- Thread scheduling: host pushes are parameters of the calls during which they happen, before and after the deadline, in every combination.
- StreamHandler.StreamingHostHttpHandler.Perform: the source loops until a last event comes, which a host that never stops pushing can prevent; the model follows any number of polls and answers nothing if none was the last.
- StreamHandler.StreamingHostHttpHandler.Start: a request with a NUL byte leaves a pending task that no caller knows of, as in the code; the encoding of requests and the host callbacks are not modelled.
- The clamping of timeouts and the one-shot host handler: floating point, and a foreign call.
- Dynamic dispatch between transports: the default, mock and network transports are one class with a constant that says which one it is; network answers and body reads are parameters.
- HttpTransports.Transport.Cancel: on a dead handle it creates a cancelled entry, as the three transports do; claims about cancelling are about what is sent afterwards.
- The request codec and the one-shot network request: foreign calls and easy members.
- Queries on parsed types are easy members.
- TypeRoundTrip.RoundTrip: names and labels are non-empty texts without the characters the scanner looks for; the parser accepts more.
- The comment on `<` in `parse_named` speaks of depth zero, but the code takes the first `<`; the model follows the code.
- Values: tasks, task groups, continuations, streams and accessors are one kind of handle that equals nothing; an object, a closure or a weak reference is known by its identity; a window outside its base reads as empty where the code stops the program.
- Ordering operators on tuples, array concatenation and the other operator families: not part of this model.
- Field updates of structures and objects: easy members.
- Decimal.CompareIsTrue: the comparison in floating point that the code falls back to when alignment overflows is not modelled.
- Decimal.Normalized: the exponent has room for the zeros that are moved into it; mantissas equal to the least 128-bit integer, whose negation overflows, are outside the claims that mention a mantissa's magnitude, subtract such a number or divide it.
- DecimalRounding.RoundIsCorrect: a scale so extreme that the target exponent overflows is not modelled.
- AstArena.Ast.CloneSubtree: the node limit of the arena is a precondition; where it is exceeded the code stops the program.
- Node kinds and types are known by their names; dumping a tree and annotating nodes one field at a time are easy members.
- Result envelopes and the truncation of output: formatting.
- SQLite, files, defaults, the interpreter itself, its lexer, parser and semantic analysis, charts and capability tables: foreign calls, plumbing, or code that is not part of this model.
