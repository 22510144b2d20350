# fraze, modelled in Dafny

fraze generates pronounceable pseudo-words and phrases. It walks at random over
a phoneme adjacency list: a map from each phoneme to the phonemes that may follow
it, with a repeated target drawn more often. This project models the pure logic
of `index.js` (class `Fraze`):

- `validateOptions`, the option guard → `Options.ValidateOptions`;
- `validateAdjList`, the advisory sink-reference check → `Validator.ValidateAdjList`. It
  returns its warnings as a sequence of `Diagnostic`s instead of printing them.
- `generateAdjacencyLists`, the seed builder from consonant and vowel stems →
  `SeedBuilder.GenerateAdjacencyLists`;
- `generateAdjacencyListsFromCorpus`, the corpus builder with non-overlapping
  windows of width L → `CorpusBuilder.GenerateAdjacencyListsFromCorpus`;
- `makeWord`, the bounded random walk → `Generator.MakeWord`;
- `makePhrase` → `Generator.MakePhrase`;
- the option defaults, validation and phrase loop of `main` → `Orchestrator.Run`.

The graph is an immutable `map<string, seq<string>>` (`Graphs.Graph`). An
`undefined` or `null` argument is `Option.None`. A thrown error is `Result.Err`
or `Outcome.Fail`. The two random draws are nondeterministic choices (`:|`):
`_.random(1, maxChars)` draws the length target and `_.sample` draws each phoneme.
Every contract about `MakeWord`, `MakePhrase` and `Run` therefore holds for every
possible draw. `Finished` and `StuckAt` in `Generator` describe all successful
and all failing outcomes of one word.

Files: `wrappers.dfy` (Option/Result/Outcome), `numbers.dfy` (Min/Max), `graphs.dfy` (graph predicates),
`text.dfy` (joins and split), `options.dfy`, `validator.dfy`,
`seed_builder.dfy`, `corpus_builder.dfy`, `generator.dfy`, `orchestrator.dfy`.

## Model

| member | source | states |
|---|---|---|
| Options.ValidateOptions | index.js:15-25 | Passes exactly when all three counts are present and at least 1. Otherwise it fails with the first failing check, in the order words, phrases, maxChars, and the error carries the rejected value. A 0 is rejected because it is falsy. |
| Validator.ValidateAdjListReports | index.js:27-38 | With the keys enumerated once each, the validator warns about target t exactly when t is referenced by some edge list and is not a key. A target whose key exists with an empty list is never reported. |
| Validator.SinksInInOrder | index.js:30-36 | Within one edge list, warnings come in edge order. A single edge is reported exactly when its target is not a key, and the warnings for a concatenation of edge lists are those of the first part followed by those of the second. |
| Validator.ValidateAdjListInOrder | index.js:28-37 | Across keys, warnings come in enumeration order. A single key contributes exactly the warnings of its edge list, and the warnings for a concatenation of key enumerations are those of the first part followed by those of the second. |
| Validator.ValidateAdjListSilent | index.js:27-38 | The validator reports nothing exactly when every edge target is a key. |
| Validator.ValidateAdjListCount | index.js:28-36 | The number of warnings equals the number of (key, position) pairs whose target is not a key: one warning per occurrence, with no deduplication. |
| Validator.ValidateAdjListPerTarget | index.js:28-36 | For each target t, the number of warnings about t equals the number of (key, position) pairs whose edge is t, when t is not a key. It is 0 when t is a key. Every occurrence is reported, and nothing is reported more often than it occurs. |
| Validator.ValidateAdjListExamples | test/index.spec.js:81-92 | `{a:[a,z], b:[a]}` yields exactly one warning, for `z`. The three-letter example graph yields none. |
| SeedBuilder.WithoutSpaceIsFilter | index.js:85-87 | Removing the space token is the in-order `filter`. A single phoneme is kept exactly when it is not the space token, and removal distributes over concatenation. Order and duplicates (sampling weight) are therefore preserved. |
| SeedBuilder.AssignAll | index.js:91-92 | `forEach` assignment: the listed keys are added and bound to the given list, and every other key keeps its list. |
| SeedBuilder.GenerateAdjacencyLists | index.js:80-95 | Fails exactly when a stem list is absent. Otherwise the keys are exactly the consonants and vowels, and every vowel maps to vowels ++ consonants without the space token. A consonant that is not also a vowel maps to exactly the vowel list, so on overlap the vowel assignment wins. |
| SeedBuilder.SeedGraphClosed | index.js:85-92 | Every edge target of a seed graph is a key. |
| SeedBuilder.SeedGraphPassesValidation | test/index.spec.js:327-329 | The validator reports nothing for a seed graph, for any enumeration of its keys. |
| SeedBuilder.SeedGraphWellFormed | index.js:91-92 | With a vowel and some phoneme other than the space token, the seed graph is non-empty, closed and has no empty edge list, so a walk on it cannot get stuck. |
| SeedBuilder.ConsonantsGetVowels | test/index.spec.js:295-325 | With vowels a, e, i, o, u and consonants k, t, s, each consonant's edge list is exactly the vowel list. |
| CorpusBuilder.StripIsFilter | index.js:118-121 | Removing `[^a-z]` is an in-order filter. A single character is kept exactly when it lies in `a`-`z`, and filtering distributes over concatenation, so the kept letters stay in input order. |
| CorpusBuilder.StripKeepsLetters | index.js:12 | A character is in the filtered text exactly when it is in the input and lies in `a`-`z`. Upper-case letters are dropped. |
| CorpusBuilder.Windows | index.js:117-129 | Every visited key and follower has length at most L. |
| CorpusBuilder.WindowAt | index.js:109-133 | Window j exists exactly when j*L < the corpus length - L, and it is the filtered slice starting at j*L with its filtered follower, cut short at the corpus end. A last full window that ends exactly at the corpus end is never visited. |
| CorpusBuilder.WindowsChained | index.js:126-133 | Each visited window's follower is the key of the next visited window. |
| CorpusBuilder.CorpusGraphSnoc | index.js:122-132 | One more window registers its key with an empty list if the key is new, then appends its follower only when that is non-empty. |
| CorpusBuilder.GenerateAdjacencyListsFromCorpus | index.js:104-136 | Throws exactly when L <= 0, carrying L. A corpus of length <= L gives the too-short outcome, `{}` and no persistence. In both cases the returned map is the reference graph of the visited windows. Otherwise the loop's graph equals the reference graph of the visited windows: keys are the filtered windows, `""` included, and each key's edges are the non-empty followers in corpus order, duplicates kept. |
| CorpusBuilder.CorpusGraphNearlyClosed | index.js:117-134 | No edge target is `""`. Every target is a key, except possibly the last target of the last window's key, which is the follower appended on the final iteration. |
| CorpusBuilder.CorpusGraphWarnsAtMostOnce | index.js:117-134 | The validator warns at most once about any corpus graph. |
| CorpusBuilder.LastFullWindowSkipped | index.js:117 | On `"abcd"` with L=2 only the window `ab` is visited, its edge `cd` is not a key, and the validator warns once. |
| CorpusBuilder.EmptyKeyRegistered | index.js:121-125 | On `"  ab"` with L=2, the window of two spaces strips to `""`, so the graph is exactly `{"": ["ab"]}`. |
| Generator.BlockedIffNoChoice | index.js:150-157 | A draw has nothing to choose from exactly when the walk restarts on an empty graph, or the previous phoneme has no entry or an empty list. |
| Generator.Draw | index.js:150-156 | Returns nothing exactly when blocked. Otherwise it returns a key on a restart (no or `""` previous phoneme) and a member of the previous phoneme's list otherwise. |
| Generator.Walk | index.js:146-159 | Either finishes, with the phonemes forming a walk, each drawn while the word was below target and the final word reaching target, or stops stuck below target at a blocked draw. It never gets stuck on a well-formed graph, and a target below 1 draws nothing. |
| Generator.FinishedBounds | index.js:148-159 | A finished word with target >= 1 has at least one phoneme, and target <= the word length <= target - 1 + the last phoneme's length. |
| Generator.MakeWord | index.js:139-161 | A missing graph throws. Otherwise the target lies in lodash's range between 1 and maxChars. The word is a walk that starts at a key and follows edges, restarting after `""`. It has at least one phoneme when target >= 1 and overshoots by less than its last phoneme. A failure is the TypeError of a blocked draw. A well-formed graph never fails. |
| Generator.UnitWordWithinMaxChars | test/index.spec.js:256-258 | On a graph whose phonemes all have one character, a word is never longer than maxChars >= 1. |
| Generator.UnitWordFollowsEdges | test/index.spec.js:239-247 | On a closed one-character graph, every letter of a word is a key and each letter is an edge target of the letter before it. |
| Generator.EmptyKeyGraphHangs | index.js:149-158 | On `{"": ["ab"]}`, the graph the corpus builder makes from `"  ab"` with L=2, every legal walk consists only of `""`, spells the empty word and is never blocked. For any target of at least 1, no walk finishes and none gets stuck, so `makeWord` never returns. |
| Generator.ValidSetWords | test/index.spec.js:249-258 | Words from `{a:[a,b,c,c], b:[a,c], c:[a,c]}` never contain `bb` and are at most maxChars long. |
| Generator.MakePhrase | index.js:163-172 | A missing graph throws even for 0 words. When `_.times` makes no call it returns the empty phrase and cannot fail. Otherwise it returns as many words as lodash's `_.times` makes calls: none when numWords is below 1 or above `Number.MAX_SAFE_INTEGER`, otherwise numWords. Each word is a possible `makeWord` outcome. A failure is a blocked draw, and a well-formed graph never fails. |
| Generator.PhraseTokens | test/index.spec.js:285-287 | 0 words give `""`. When no phoneme contains a space, splitting a phrase of n >= 1 words on spaces gives back exactly its n words. |
| Text.Split | test/index.spec.js:286 | Splitting always yields at least one piece. |
| Text.SplitJoin | index.js:171 | Splitting a single-separator join recovers the joined strings when none contains the separator. |
| Orchestrator.Resolve | index.js:178-180 | Each count is the first truthy of its sources, with defaults 5 words, 1 phrase and 10 maxChars. A 0 falls back like a missing value, so no resolved count is 0. |
| Orchestrator.ResolvedRejectedIffNegative | index.js:178-185 | After defaulting, the option guard rejects exactly when some count is negative. |
| Orchestrator.Run | index.js:174-195 | A missing graph throws. Invalid resolved options throw that exact error before anything is generated. Otherwise the validator's warnings for the full key enumeration are issued, and they are empty exactly when the graph is closed. On success there are numPhrases phrases of numWords possible words each, both counts capped as `_.times` caps them. An invalid-option error occurs only when the resolved options fail the guard. A generation failure is a blocked draw of a walk that is stuck below a target in lodash's range, and it still carries the warnings already issued. Such a failure happens only when `_.times` calls back for both the phrase count and the word count. A well-formed graph with valid options always succeeds. |

## Left out

- File and console plumbing (index.js:40-78): `loadPhonemeStems`, `loadAdjacencyData`, `hashmapToFile` and `parseJsonPath`. These are file reads and writes, JSON parsing, path joining and logging. A persisted graph is modelled as the returned map. Write failures and the "too short" and "generated" log lines are not modelled.
- The stem-file fallback of `generateAdjacencyLists` (index.js:81): the stems are a parameter. The unqualified `loadPhonemeStems` call there would throw a ReferenceError.
- The corpus file read (index.js:107): the corpus is a parameter.
- Graph loading in `main` (index.js:175-181) and the final `console.log` (index.js:192): the graph is a parameter, `None` when absent. The check at index.js:182 is kept.
- cli.js: argument parsing and the process entry point.
- The uniform distribution of `_.random` and `_.sample`: draws are nondeterministic choices, and no probability is modelled.
- JavaScript object quirks: prototype keys such as `constructor`, and key insertion order. Where order matters the validator takes the key enumeration as a parameter (`keyOrder`), which must list every key once.
- The warning text `Invalid set member: '<k>'.  No outbound edges.` (index.js:33): a `Diagnostic` carries only the offending target.
- CorpusBuilder.GenerateAdjacencyListsFromCorpus: strings are sequences of Unicode scalar values, whereas JavaScript's `length` and `slice` count UTF-16 code units (index.js:110, 117-127, 157). Window boundaries, the too-short test and word lengths therefore match the source only for text in the Basic Multilingual Plane. For example, `"😀ab"` with L=2 yields `{"": ["ab"]}` in the source, because the surrogate pair fills the first window, but `{"a": ["b"]}` in the model. Generator.MakeWord is affected the same way: the source counts a phoneme outside that plane as 2 characters, the model as 1.
- Counts are unbounded integers, not IEEE doubles. Above `Number.MAX_SAFE_INTEGER` the model does follow `_.times`, which makes no calls (`Generator.Times`). Loss of precision in arithmetic on such counts is not modelled.
- Non-integer, NaN and string-typed numbers, and default parameters. Counts are `int` or `Option<int>`. The defaults `makeWord(maxChars = 10)` and `phonemeLength = 1` are not modelled, because callers always pass a value.
- Graph values that are not arrays, such as arbitrary JSON: the graph's type rules them out.
- Generator.MakeWord: requires that `""` is not a key. With such a key the walk can draw `""` forever without adding characters, so the source loop need not terminate.
- Generator.Walk: requires that `""` is not a key, for the same reason. A walk that draws `""` adds no characters and restarts, so with such a key the source loop need not terminate.
- Generator.MakePhrase: requires that `""` is not a key, because it runs `makeWord`, whose loop need not terminate with such a key.
- Orchestrator.Run: requires that `""` is not a key, because it runs `makePhrase` and so `makeWord`, whose loop need not terminate with such a key.

## Behaviour of the code worth knowing

- Corpus window bound: windows are visited only while `i < |corpus| - L` (index.js:117). A last full window that ends exactly at the corpus end is therefore never a key (`LastFullWindowSkipped`).
- As a result, the corpus `"abc\nccc\nddd eee\n"` used in test/index.spec.js with L=2 yields `{ab:[c], c:[cc,dd], cc:[c], dd:[d], d:[ee], ee:[e]}`, and the validator warns once, about `e`. `CorpusGraphWarnsAtMostOnce` proves that a corpus graph never gets more than one such warning.
- The window-width guard rejects only falsy and negative widths (index.js:104). Non-integers are not rejected.
- The seed builder does not require disjoint stems. On overlap the vowel list wins (index.js:91-92).
- The corpus builder can produce a graph on which `makeWord` never returns. `"  ab"` with L=2 yields `{"": ["ab"]}` (`EmptyKeyRegistered`). There every draw is a restart (index.js:152-153) that yields `""` and adds no characters, so for any target of at least 1 the loop at index.js:149 runs forever (`EmptyKeyGraphHangs`).
- The validator does not report keys with an empty edge list, only targets that are missing as keys (index.js:31).
