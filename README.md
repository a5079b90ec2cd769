# SRB language model in Dafny

A model of the core of SRB, the localization and translation library for
BromineMC: the
`Language` entity, the key-set checker and the Gson deserializer.

- **Language.** A language is an id, a display name, a set of
  identification ids, a list of authors, and an immutable translation table
  from keys to lists of lines. It also has two date-time formatters and
  three write-once caches.
  - `lines(key)` answers the table's lines. If the key is missing or its
    list is empty, it asks the platform's missing-key hook, and caches the
    answer.
  - `line(key)` does the same for the lines joined with line feeds, in a
    cache of its own.
  - `duration` picks a template key by the largest non-zero part of a
    duration, then fills in the template's placeholders.
  - `custom` memoises a loader's value per key.
  - `preCache` warms both text caches for every table key.
  - The constructor deep-copies the table. It rejects any line that
    contains LF or CR.
- **Checker.** `checkSingle` compares two languages' key sets and reports
  the extra and the missing keys. `checkMulti` does this for each language
  of a collection.
- **Gson adapter.** `deserialize` reads a JSON object into the
  constructor's arguments and rejects malformed documents.

The Dafny modules follow that structure:

- `Wrappers` holds `Option` and `Result`; a thrown exception is an `Err`
  value.
- `Text` holds joining, splitting, literal replacement and decimal
  rendering.
- `Durations` holds the pure part of `duration`.
- `Languages` holds the `Language` and `Platform` classes.
  - The caches are map fields that the methods update in place.
  - The platform hook is a function value.
  - The platform keeps a log of its calls. The contracts use the log to say
    exactly when the hook is consulted.
- `Checker` holds the comparison.
- `GsonAdapter` holds the decoder.
  - It works over a small JSON datatype.
  - The specification function `Decode` takes the checks in the order
    `deserialize` does.
  - The methods with loops are proved equal to `Decode`.

Invariant: `Language.Valid()` says the table is free of line breaks and
every cached answer is the one a miss would compute now. So a cached
answer never changes, and the platform is never asked twice for the same
key of the same cache.

## Model

| member | source | states |
|---|---|---|
| Text.Join | src/main/java/ru/brominemc/srb/Language.java:222-224 | `String.join("\n", …)`: no lines give the empty text, one line gives that line |
| Text.SplitJoin | src/main/java/ru/brominemc/srb/Language.java:224 | cutting the joined text of LF-free lines at the line feeds gives the same lines back, in order |
| Text.JoinInjective | src/main/java/ru/brominemc/srb/Language.java:224 | two non-empty lists of LF-free lines join to the same text exactly when they are equal |
| Text.JoinThreeLines | src/main/java/ru/brominemc/srb/Language.java:224 | the lines a, b, c join to `a\nb\nc` |
| Text.Replace | src/main/java/ru/brominemc/srb/Language.java:284-288 | `String.replace` with a non-empty target leaves a text alone when the target's first character is not in it, and when the replacement is the target itself |
| Text.ReplaceSkip | src/main/java/ru/brominemc/srb/Language.java:284-288 | when no occurrence of a non-empty target starts inside a prefix, `String.replace` copies the prefix and goes on with the rest |
| Text.ReplaceFirst | src/main/java/ru/brominemc/srb/Language.java:284-288 | when a non-empty target first occurs right after a prefix, the prefix is copied, that occurrence becomes the replacement, and the scan resumes after it |
| Text.ReplaceAbsent | src/main/java/ru/brominemc/srb/Language.java:283-288 | `String.replace` of a non-empty target that does not occur returns the text unchanged |
| Text.ReplaceWhole | src/main/java/ru/brominemc/srb/Language.java:283-288 | replacing a text that is exactly the target yields the replacement |
| Text.NatToString | src/main/java/ru/brominemc/srb/Language.java:284-288 | `Long.toString`/`Integer.toString` of a non-negative count: non-empty, all decimal digits, no leading zero |
| Text.ParseNatToString | src/main/java/ru/brominemc/srb/Language.java:284-288 | reading the rendering back as a decimal numeral gives the count |
| Text.NatToStringInjective | src/main/java/ru/brominemc/srb/Language.java:284-288 | two counts render the same only when they are equal |
| Durations.PartsOf | src/main/java/ru/brominemc/srb/Language.java:263-267 | the `to*Part` values: hours below 24, minutes and seconds below 60, milliseconds below 1000, and the parts add up to the duration |
| Durations.PartsOfTotal | src/main/java/ru/brominemc/srb/Language.java:263-267 | in-range parts are recovered from their total, so the cut is a bijection |
| Durations.Bucket | src/main/java/ru/brominemc/srb/Language.java:268-279 | the chosen bucket has every larger part zero and is non-zero itself; otherwise it is seconds when not precise and milliseconds when precise |
| Durations.BucketUnique | src/main/java/ru/brominemc/srb/Language.java:268-279 | the bucket with those properties is unique |
| Durations.TemplateKey | src/main/java/ru/brominemc/srb/Language.java:280-282 | the key ends in `.precise` exactly when precise output is asked for |
| Durations.TemplateKeyExamples | src/main/java/ru/brominemc/srb/Language.java:268-282 | 2 h 5 min 30 s gives `hours` and `hours.precise`; a zero duration gives `seconds` and `millis.precise` |
| Durations.Placeholder | src/main/java/ru/brominemc/srb/Language.java:284-288 | a unit's placeholder starts and ends with `%` and has no other `%` |
| Durations.FillStep | src/main/java/ru/brominemc/srb/Language.java:284-288 | one replacement of the chain leaves a text without `%` unchanged |
| Durations.Fill | src/main/java/ru/brominemc/srb/Language.java:283-288 | the five replacements, days to milliseconds as `duration` chains them, render a template without `%` verbatim |
| Durations.PlaceholderInjective | src/main/java/ru/brominemc/srb/Language.java:284-288 | two units with the same placeholder are the same unit |
| Durations.Shown | src/main/java/ru/brominemc/srb/Language.java:284-288 | a slot shows either its placeholder or, once its unit's step has run, its part's digits, which hold no `%` |
| Durations.NoNameAhead | src/main/java/ru/brominemc/srb/Language.java:284-288 | in a well-formed template, the text after a placeholder never begins with a unit name followed by `%`, so no placeholder can straddle two slots |
| Durations.NoEarlyOccurrence | src/main/java/ru/brominemc/srb/Language.java:284-288 | in percent-free text followed by one unit's placeholder, no other unit's placeholder starts before that placeholder ends |
| Durations.FillStepRender | src/main/java/ru/brominemc/srb/Language.java:284-288 | one `replace` of the chain on a well-formed template turns every placeholder of its unit, and no other text, into the part's digits |
| Durations.FillTemplate | src/main/java/ru/brominemc/srb/Language.java:283-288 | any number of placeholders separated by percent-free literals that are not unit names all render as their parts' digits, whatever the order of the units |
| Durations.FillPlaceholder | src/main/java/ru/brominemc/srb/Language.java:283-288 | a template with one placeholder in percent-free text renders as that text with the placeholder replaced by its part's decimal value |
| Durations.FillTwoPlaceholders | src/main/java/ru/brominemc/srb/Language.java:283-288 | two placeholders in percent-free text, with a middle literal that is not a unit name, both render as their parts' digits |
| Languages.Platform.MissingKey | src/main/java/ru/brominemc/srb/Language.java:202 | the hook answers its substitute lines and records exactly one call, for this language and key |
| Languages.CopyLines | src/main/java/ru/brominemc/srb/Language.java:89-99 | succeeds exactly when no line has LF or CR, and then copies the lines unchanged; otherwise it blames the first offending line in list order, for its LF first |
| Languages.BlamesFirstLine | src/main/java/ru/brominemc/srb/Language.java:89-99 | at most one error blames a list of lines: the first bad line, with its LF before its CR |
| Languages.CopyTable | src/main/java/ru/brominemc/srb/Language.java:82-102 | succeeds exactly when the whole table is free of LF and CR, and then copies it unchanged; otherwise it blames the first offending line of some key |
| Languages.Language.constructor | src/main/java/ru/brominemc/srb/Language.java:73-80 | the fields hold the given values and the caches start empty, which satisfies `Valid` |
| Languages.Language.Create | src/main/java/ru/brominemc/srb/Language.java:70-107 | the constructor throws exactly on a table line with LF or CR, naming the first such line of some key; otherwise it returns a new valid language with the given fields and empty caches |
| Languages.Language.Translation | src/main/java/ru/brominemc/srb/Language.java:199-205 | a miss answers the table's lines when the key has a non-empty list, otherwise the platform's substitute |
| Languages.Language.Consulted | src/main/java/ru/brominemc/srb/Language.java:199-203 | a lookup calls the platform at most once, and calls it exactly when the key is neither cached nor served by the table |
| Languages.Language.Lines | src/main/java/ru/brominemc/srb/Language.java:198-206 | answers the translation; a cached answer is returned unchanged; the key is cached afterwards; the platform is called only on an unserved miss; the other caches are untouched |
| Languages.Language.Line | src/main/java/ru/brominemc/srb/Language.java:218-226 | as `Lines`, for the translation joined with line feeds, in its own cache |
| Languages.Language.Duration | src/main/java/ru/brominemc/srb/Language.java:261-289 | a negative duration answers the `unknown` line; otherwise it answers the template of `TemplateKey` with the parts filled in; the line cache gains only that key's joined translation; the platform is called once exactly when that key is neither cached nor served |
| Languages.Language.Custom | src/main/java/ru/brominemc/srb/Language.java:301-305 | a null key fails with a null-pointer error; a cached key answers its value without the loader; a miss answers the loader's value and caches it unless it is null |
| Languages.Language.Warm | src/main/java/ru/brominemc/srb/Language.java:314-317 | one step of `preCache` adds the key to both caches and appends exactly the calls of `lines(key)` then `line(key)`: one per cache that lacked the key, when the table does not serve it |
| Languages.Language.CallsSoFarStep | src/main/java/ru/brominemc/srb/Language.java:313-318 | warming one more table key keeps the tally: each key's calls number `MissCount` once warmed and none before |
| Languages.Language.WarmNext | src/main/java/ru/brominemc/srb/Language.java:314-317 | one iteration of the loop keeps the loop's state description with one key fewer to warm |
| Languages.Language.Appended | src/main/java/ru/brominemc/srb/Language.java:313-318 | once all keys are warmed, the new calls ask only empty-list table keys missing from a cache, each as often as `MissCount` says, and there are none when both caches held every table key |
| Languages.Language.PreCache | src/main/java/ru/brominemc/srb/Language.java:313-318 | both caches end with their old keys plus every table key and stay valid; the old call log is kept as a prefix; the new calls are, per key, one for each cache that lacked an empty-list table key, so a key already in both caches is never asked about and fully warmed caches make no call |
| Languages.Language.Equals | src/main/java/ru/brominemc/srb/Language.java:321-328 | `equals` holds exactly when id, name, ids, authors, formatters (by identity) and table are equal; the identity shortcut changes no answer |
| Languages.EqualsIsEquivalence | src/main/java/ru/brominemc/srb/Language.java:321-328 | `equals` is reflexive, symmetric and transitive |
| Languages.LineAgreesWithLines | src/main/java/ru/brominemc/srb/Language.java:198-226 | for a served key, cutting `line(key)` at the line feeds gives `lines(key)` |
| Languages.LineTwice | src/main/java/ru/brominemc/srb/Language.java:218-226 | two `line` calls for one key answer the same text and consult the platform at most once, and not at all for a cached or served key |
| Checker.CheckResult.Clean | src/main/java/ru/brominemc/srb/checker/CheckResult.java:61-63 | a result is clean exactly when no key is extra and no key is missing |
| Checker.CheckResult.Dirty | src/main/java/ru/brominemc/srb/checker/CheckResult.java:71-73 | `dirty()` is exactly the negation of `clean()` |
| Checker.Same | src/main/java/ru/brominemc/srb/checker/CheckResult.java:83-85 | the result compares the language with itself and is clean |
| Checker.CheckSingle | src/main/java/ru/brominemc/srb/checker/LanguageChecker.java:70-82 | with or without the identity shortcut: the extra keys are the compared table's keys absent from the base, and the missing keys are the base's keys absent from the compared table |
| Checker.CleanIffSameKeys | src/main/java/ru/brominemc/srb/checker/LanguageChecker.java:70-82 | a comparison is clean exactly when both tables have the same key set |
| Checker.CheckSingleSwap | src/main/java/ru/brominemc/srb/checker/LanguageChecker.java:72-79 | swapping the languages swaps extra and missing keys; the two sets are disjoint and lie in their tables |
| Checker.EqualLanguagesClean | src/main/java/ru/brominemc/srb/checker/LanguageChecker.java:71-81 | languages that are `equals` compare clean |
| Checker.CheckMulti | src/main/java/ru/brominemc/srb/checker/LanguageChecker.java:53-59 | one result per compared language, in order, each equal to `CheckSingle` with the base |
| GsonAdapter.AsString | gson/src/main/java/ru/brominemc/srb/gson/SRBGsonAdapter.java:56 | `getAsString` succeeds exactly on primitives and gives their text |
| GsonAdapter.GetString | gson/src/main/java/ru/brominemc/srb/gson/SRBGsonAdapter.java:117-124 | succeeds exactly on a present primitive member and gives its text; otherwise fails naming the key |
| GsonAdapter.GetArray | gson/src/main/java/ru/brominemc/srb/gson/SRBGsonAdapter.java:126-134 | succeeds exactly on a present array member and gives its elements; otherwise fails naming the key |
| GsonAdapter.GetObject | gson/src/main/java/ru/brominemc/srb/gson/SRBGsonAdapter.java:136-144 | succeeds exactly on a present object member and gives its members; otherwise fails naming the key |
| GsonAdapter.StringsOf | gson/src/main/java/ru/brominemc/srb/gson/SRBGsonAdapter.java:62-72 | succeeds exactly when every element is a string, and then gives their texts in order, duplicates kept |
| GsonAdapter.IdsOf | gson/src/main/java/ru/brominemc/srb/gson/SRBGsonAdapter.java:51-61 | succeeds exactly when every element is a string, and then a text is in the set exactly when it is an element |
| GsonAdapter.IdsCollapse | gson/src/main/java/ru/brominemc/srb/gson/SRBGsonAdapter.java:52-61 | repeating an id does not change the decoded set |
| GsonAdapter.EntryLines | gson/src/main/java/ru/brominemc/srb/gson/SRBGsonAdapter.java:76-97 | a primitive value is one line; an array is its strings in order; a null, an object or an array with a non-string is rejected |
| GsonAdapter.DataOf | gson/src/main/java/ru/brominemc/srb/gson/SRBGsonAdapter.java:73-98 | succeeds exactly when every entry is accepted, and then has the object's key set with each entry's lines |
| GsonAdapter.Decode | gson/src/main/java/ru/brominemc/srb/gson/SRBGsonAdapter.java:45-112 | a non-object is rejected before anything is read; a missing or non-string `id` is the next error reported; an accepted document has valid date-time patterns |
| GsonAdapter.DecodeAcceptsExactly | gson/src/main/java/ru/brominemc/srb/gson/SRBGsonAdapter.java:45-112 | decoding succeeds exactly on an object with string `id`, `name`, `shortDateTime` and `fullDateTime`, valid patterns, string arrays `ids` and `authors`, and an object `data` of strings and string arrays |
| GsonAdapter.DecodeReadsDocument | gson/src/main/java/ru/brominemc/srb/gson/SRBGsonAdapter.java:45-113 | on success each argument is read off the document: strings as is, `ids` as a set, `authors` in order, `data` with the same keys and each entry's lines |
| GsonAdapter.CollectStrings | gson/src/main/java/ru/brominemc/srb/gson/SRBGsonAdapter.java:64-72 | the loop over `authors` (and over a `data` array) computes `StringsOf` |
| GsonAdapter.CollectIds | gson/src/main/java/ru/brominemc/srb/gson/SRBGsonAdapter.java:52-61 | the hash-set loop over `ids` computes `IdsOf` |
| GsonAdapter.CollectData | gson/src/main/java/ru/brominemc/srb/gson/SRBGsonAdapter.java:74-98 | the hash-map loop over `data` computes `DataOf` |
| GsonAdapter.DecodeArguments | gson/src/main/java/ru/brominemc/srb/gson/SRBGsonAdapter.java:45-112 | the imperative decoder gives exactly `Decode`'s result, errors included |
| GsonAdapter.Deserialize | gson/src/main/java/ru/brominemc/srb/gson/SRBGsonAdapter.java:45-113 | a decoding error is passed through; otherwise the result is a new valid language with exactly the decoded fields, or the constructor's rejection of a line with LF or CR |

## Left out

- Concurrency. The caches are `ConcurrentHashMap`s filled by
  `computeIfAbsent`. The model is sequential, so it does not capture the
  atomicity under contention, nor that a loader runs once when threads race.
- The global platform. Language.java:202 reads the process-wide platform
  from `SRB`. Here each language is bound to a `Platform` at construction.
  `SRB.java` and its null check are not part of this model.
- The `missingKey` hook. Language.java:202 calls it, but
  `SRBPlatform.java` does not declare it. `Platform.MissingKey` stands in
  for it.
- The static `of*` helpers (Language.java:361-685) are left out. They only
  delegate to the global platform.
- `String.intern()` is modelled as the identity; it changes no value.
- The date-time formatters. `shortDateTime`/`fullDateTime` formatting
  (Language.java:236-250) is left out. `DateTimeFormatter.ofPattern` is an
  abstract validity predicate on the pattern. A formatter is an object
  compared by identity, as `DateTimeFormatter` has no value equality.
- Languages.Language.Duration: it takes a count of milliseconds.
  - Sub-millisecond precision of `java.time.Duration` is not modelled.
  - The bounded range of `java.time.Duration` is not modelled: the
    millisecond count is an unbounded integer, so every part, days
    included, is exact.
- Languages.Language.Custom: keys are compared by object identity. Java's
  map compares them with `equals`, which the model cannot see for arbitrary
  objects. A loader that throws is not modelled.
- Languages.Language.PreCache: the order of the new calls is not stated,
  only how often each key is asked. The order follows the iteration order
  of the table's key set, which `Map.copyOf` leaves unspecified. `Warm`
  states the calls of one step exactly.
- Languages.Language.Equals: the `getClass()` check (Language.java:323)
  is not modelled. It tells a `Language` apart from a subclass such as
  `AdvLanguage`, and the model has no subclasses.
- `hashCode`, `toString` and the accessors are left out.
- `AdvLanguage.java` is not part of this model. It is a wrapper producing
  Adventure components.
- GsonAdapter.AsString: Gson's lenient `getAsString` is not modelled.
  - Numbers and booleans are rendered as text; a primitive here already
    carries its rendered text.
  - A single-element array reads as its element; here it is rejected.
- Exception messages are not modelled. Errors are values naming the
  failing member.
- GsonAdapter.Decode: a bad `data` entry is not attributed to a key.
  Gson's `JsonObject` keeps its members in document order, so the adapter
  (SRBGsonAdapter.java:75, :90, :97) names the first bad key of the
  document. The model's `JObject` is an unordered map, so that name is lost.
- Checker.Same: LanguageChecker.java:71 calls it as
  `CheckResult.forSame`, while CheckResult.java:83 declares it as `same`.
  The model has one function for both.
- `CheckResult`'s `Set.copyOf` is not modelled separately. Sets are values
  here, so the copy is implicit.
