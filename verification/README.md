# NIKKE character data: a verified model of record resolution

This project models, in Dafny, the schema-less record-resolution logic of the
NIKKE character catalogue. Raw character JSON comes in many shapes, and this
logic pulls canonical fields out of it. The model covers three parts.

- **The browser catalogue (`public/app.js`).**
  - `flattenRecord` turns a record into ordered leaf entries.
  - `getValueFromRecord` is the fuzzy field resolver: direct keys first, then the leaf with the best additive lexical score.
  - The text normalisers are `normalizeToken`, `normalizeString` and `normalizeDisplayValue`.
  - `buildSearchIndex`, `matchesFilter` and the `field::token` filter ids build and check the search and filter data.
  - `extractSkills` and `extractSkillNames` collect skills.
  - The five-slot team array has three operations: add, remove and reset.
- **The scraper (`scripts/fetch-characters.mjs`).**
  - `findMatchingNode` and `traverse` are breadth-first searches over a possibly cyclic object graph with a `seen` set.
  - The shape tests are `isCharacterLike`, `isStatsObject` and `isSkillLike`.
  - `pickValue` and `pickFirst` do case-insensitive key lookup.
  - `collectSkillEntries` and `normalizeSkills` collect and map skill arrays.
  - `normalizeCharacter` builds the canonical record.
  - `resolveSlug`, `cleanupSlug` and `toArray` handle slugs and list coercion.
- **The table join (`public/process_nikke_data.py`).**
  - It keeps visible base-grade characters and builds the id-indexed skill and stat lookup tables.
  - It maps element ids to names and assembles each output record.
  - `main` skips records that raise, sorts by `(order, id)`, counts the characters and tallies rarities.

The JSON is represented in three ways, each matching how its source file sees the data.

- **Trees.** The browser code reads parsed JSON as trees (`JsonValues.Json`, with integer numbers). An object is its key/value sequence in enumeration order.
- **A heap of nodes.** The scraper guards against cycles by object identity, so its searches run over a heap `map<nat, Node>`. Values refer to nodes by address. Every search is a function that decreases on (unseen nodes, queue length), so it terminates on self-referential graphs.
- **Python values.** The Python script reads the same `Json` trees with Python semantics: truthiness, `==` with `True == 1`, and hashable dictionary keys (`PyValues.Key`). It raises `AttributeError`, `TypeError` or `KeyError` as an `Outcome`.

Each loop in the source becomes a `method` that is proved equal to a pure specification function. The properties the code promises are lemmas about those functions. The team array is a class over an `array`, whose methods state the new contents of the slots.

Two behaviours of the code are easy to misread, so the model states them outright.

- **Scoring.** In `getValueFromRecord` (public/app.js:596-603), the +200 for an exact key match and the +120/+80 path bonus both fire. An exact key match therefore earns 320 for that hint.
- **The two "present" tests.** `pickFirst` skips only `undefined`, `null` and `''` (scripts/fetch-characters.mjs:461). `normalizeSkills` chains with `||`, so `0` and `false` fall through to the next alias (scripts/fetch-characters.mjs:433-446). The model keeps the two tests apart.

## Model

| member | source | states |
|---|---|---|
| Text.Lower | public/app.js:671 | ASCII `toLowerCase`: same length, each upper-case letter shifted to lower case, every other character unchanged |
| Text.Trim | public/app.js:690 | `trim()` returns the contiguous slice left after dropping the leading and trailing white space; the result neither starts nor ends with white space |
| Text.HasTextIffTrimmed | scripts/fetch-characters.mjs:318 | `value.trim()` is truthy exactly when the string holds a non-white-space character |
| Normalizers.NormalizeToken | public/app.js:678-685 | the result uses only `[a-z0-9]`; `''` for every falsy input other than `0` |
| Normalizers.NormalizeString | public/app.js:668-676 | the result is `[a-z0-9]` words separated by single spaces, with no leading or trailing space; `''` for falsy input other than `0` |
| Normalizers.StringWithoutSpacesIsToken | public/app.js:668-685 | deleting the spaces from `normalizeString(x)` gives `normalizeToken(x)` for every `x` |
| Normalizers.ZeroAndFalsyInputs | public/app.js:668-685 | `0` normalises to `"0"` under both normalisers; `false` and `null` normalise to `''` |
| Normalizers.NormalizeDisplayValue | public/app.js:687-692 | `''` for falsy input; otherwise every white-space character left is a single space, no space is doubled, and the result neither starts nor ends with white space |
| Normalizers.DisplayValueKeepsText | public/app.js:687-692 | `normalizeDisplayValue` rewrites only white space: dropping the spaces of its result gives exactly the non-white-space characters of `String(value)`, in order |
| Flattening.FlattenRecord | public/app.js:615-628 | the recursive walk appends exactly the leaf entries of `value` to the shared accumulator, after what it already held |
| Flattening.LeavesCount | public/app.js:615-628 | `flattenRecord` emits exactly one entry per non-container value, `null` included |
| Flattening.LeavesAreScalars | public/app.js:616-625 | no entry holds an array or an object, so containers (empty ones included) emit nothing |
| Flattening.LeavesSound | public/app.js:615-628 | every entry describes a scalar inside the record: its path is the dotted path to it, its depth is the number of path segments, its key is the last segment, and its value is the value found there |
| Flattening.LeavesComplete | public/app.js:615-628 | every scalar reachable along a path of array indices and keys appears as an entry with that path and depth |
| Flattening.ItemLeavesMember | public/app.js:616-619 | an entry of an array comes from exactly one of its items, under that item's index |
| Flattening.FieldLeavesMember | public/app.js:620-623 | an entry of an object comes from exactly one of its fields, under that field's key |
| Flattening.FieldsInOrder | public/app.js:620-623 | document order: for every split of an object's fields, the entries of the earlier fields all come before those of the later ones |
| Flattening.ItemsInOrder | public/app.js:616-619 | document order: the entries of an array's first items, each under its index, are the start of the array's entries |
| Flattening.FlattenScalar | public/app.js:625 | a scalar record is one root entry with path `''`, key `''` and depth 0 |
| Flattening.PathTokenEndsWithKeyToken | public/app.js:591-599 | the normalised path of an entry always ends with its normalised key, so an exact key hit also earns the path-suffix bonus |
| FieldResolver.OwnProperty | public/app.js:581 | an own property of an object is its field; `null`, `false`, `0`, numbers and booleans own nothing |
| FieldResolver.DirectValue | public/app.js:579-585 | a direct-key result is never `null` |
| FieldResolver.FindDirect | public/app.js:579-585 | the direct-key loop returns the value of the first direct key owned with a non-null value |
| FieldResolver.NormalizedHints | public/app.js:586 | every hint is replaced by its `normalizeToken` form, in order |
| FieldResolver.ScoreEntry | public/app.js:590-607 | the per-entry score loop computes the additive score: per hint +200 for an equal key and, independently, +120 for a path suffix or else +80 for a path substring, then +20 when positive at depth at most 2 |
| FieldResolver.BestMatch | public/app.js:587-611 | the `forEach` loop ends holding the entry chosen by the first-maximum rule, with its score |
| FieldResolver.GetValueFromRecord | public/app.js:578-613 | the whole resolver computes the direct-key-then-fuzzy result |
| FieldResolver.DirectKeyPrecedence | public/app.js:579-585 | when `raw` owns `directKeys[i]` with a non-null value and no earlier direct key qualifies, the result is `raw[directKeys[i]]`, whatever entries are passed |
| FieldResolver.DirectValueAt | public/app.js:580-584 | the first qualifying direct key is the one returned |
| FieldResolver.BestIsFirstMaximum | public/app.js:608-610 | the chosen entry has a score no entry exceeds and strictly above every earlier entry; nothing is chosen exactly when every score is 0 |
| FieldResolver.FirstMaximumIsBest | public/app.js:608-610 | conversely, the first entry reaching the positive maximum is the one chosen |
| FieldResolver.PicksFirstMaximum | public/app.js:587-612 | the fuzzy result is the value of the first entry, in entry order, reaching the maximum positive score |
| FieldResolver.UndefinedIffNothingScores | public/app.js:612 | the fuzzy result is `undefined` exactly when no entry scores above 0 |
| FieldResolver.NeverNullOrEmpty | public/app.js:590 | entries whose value is `null` or `''` are never chosen |
| FieldResolver.EmptyHintIgnored | public/app.js:595 | an empty normalised hint adds nothing to any score |
| FieldResolver.HintsScoreAppend | public/app.js:594-604 | scores add across hints |
| FieldResolver.ExactKeyBeatsContains | public/app.js:594-607 | for one hint, an exact key match scores at least 320 and a contains-only match at most 100 |
| Search.CollectEntryTokens | public/app.js:631-639 | the entry loop fills the token set with number and string leaf values, each once, in first-seen order |
| Search.CollectExtraTokens | public/app.js:640-642 | the extras loop leaves the set holding the entry tokens followed by each truthy extra not already there, in first-seen order (containers compared by content; see Left out) |
| Search.NormalizeTokens | public/app.js:643-645 | the tokens are mapped through `normalizeString` and the empty results dropped |
| Search.BuildSearchIndex | public/app.js:630-647 | the method computes the search text of the entries and extras |
| Search.SearchTextShape | public/app.js:643-646 | the search text is `[a-z0-9]` words separated by single spaces |
| Search.EntryTokensDistinct | public/app.js:631-639 | the token set holds no value twice |
| Search.ExtraTokensDistinct | public/app.js:640-642 | adding extras keeps the token set free of duplicates |
| Search.LeafInSearchText | public/app.js:632-646 | every number or string leaf whose normalised form is non-empty occurs in the search text |
| Search.ExtraInSearchText | public/app.js:640-646 | every truthy extra whose normalised form is non-empty occurs in the search text |
| Search.BooleansAndNullsIgnored | public/app.js:633-638 | a boolean or null leaf contributes nothing to the search text, wherever it stands among the leaves |
| Search.MatchesFilter | public/app.js:322-328 | `matchesFilter` is false for every falsy value |
| Search.SomeItemMatchesIff | public/app.js:324-326 | for an array it holds exactly when some item's normalised string contains the token |
| Search.SplitRoundTrip | public/app.js:311 | splitting `a::b` on `::` gives back `a` and `b` when neither contains `:` |
| Search.FilterIdRoundTrip | public/app.js:311 | splitting a filter id built as at line 279 recovers the field id and the normalised token |
| Search.BuiltFilterMatches | public/app.js:322-328 | a non-array value matches the filter built from it |
| Search.BuiltFilterMatchesItem | public/app.js:324-326 | an array value matches the filter built from any of its items |
| SkillsView.Values | public/app.js:532 | `Object.values` lists the field values, in order |
| SkillsView.Containers | public/app.js:542 | the final filter keeps only arrays and objects that were candidates |
| SkillsView.CollectCandidates | public/app.js:534-541 | the entry loop gathers the items and values under every key naming a skill, in key order |
| SkillsView.ExtractSkillsRun | public/app.js:524-543 | the method computes `extractSkills`: it reads through a non-null `raw` field, then returns the direct `skills`/`Skills` array or object values when present, otherwise the gathered candidates |
| SkillsView.CandidateOrigin | public/app.js:534-541 | every candidate comes from a field whose key names a skill |
| SkillsView.CandidateComplete | public/app.js:534-541 | every item under such a field is a candidate |
| SkillsView.RawOf | public/app.js:525 | `character.raw ?? character`: the record's own non-null `raw` field when it has one, otherwise the record itself, never `null` |
| SkillsView.SkillsOf | public/app.js:526-542 | a direct `skills` array is returned as its items; a record that is neither object, array nor string has no skills |
| SkillsView.FallbackSound | public/app.js:534-542 | without direct skills, every skill returned is a container found under a skill key |
| SkillsView.FallbackComplete | public/app.js:534-542 | without direct skills, every container under a skill key is returned |
| SkillsView.SkillNames | public/app.js:189-191 | `map` then `filter(Boolean)`: never more names than skills |
| SkillsView.NameOptions | public/app.js:190 | the `map` step resolves one name per skill, at the skill's own position |
| SkillsView.SkillNameDirect | public/app.js:190 | a non-empty string `skillName` is the name of the skill |
| SkillsView.SkillNamesDirect | public/app.js:189-191 | when every skill names itself directly, the names come out in skill order |
| SkillsView.SkillNameFallback | public/app.js:190 | without a `skillName` that qualifies, a non-empty string under `name` is the skill's name |
| SkillsView.SkillNameFalsy | public/app.js:190-191 | a falsy `skillName` other than `null`, such as `''`, still wins over `name`, and the skill then contributes no name |
| SkillsView.SkillNameFuzzy | public/app.js:190 | when neither direct key qualifies, the fuzzy match on the hints `skillname` and `name` gives the name, dropped when falsy |
| SkillsView.SkillNamesInOrder | public/app.js:189-191 | the names are exactly the truthy resolved names of the skills, each once, in skill order |
| SkillsView.ExtractSkills | public/app.js:524-543 | `None` (the throw reading `character.raw`) exactly for a `null` record; a record with a non-null `raw` field has the skills of that field, any other object has its own |
| SkillsView.CatalogueEntrySkills | public/app.js:524-530 | a catalogue entry whose `raw` holds a `skills` array has exactly that array's items as its skills |
| SkillsView.ExtractSkillNames | public/app.js:185-192 | `None` exactly for a `null` record; `''` when there are no skills or no names |
| TeamPanel.FindMember | public/app.js:402 | the index found holds the id and no earlier slot does; none means no slot holds it |
| TeamPanel.FirstEmpty | public/app.js:407 | the index found is empty and every earlier slot is filled; none means the team is full |
| TeamPanel.AddResult | public/app.js:401-415 | adding keeps the team length |
| TeamPanel.Team.constructor | public/app.js:85 | the team starts as `MAX_TEAM_SIZE` empty slots |
| TeamPanel.Team.FindIndexOf | public/app.js:402 | the scan returns the first slot holding the id |
| TeamPanel.Team.FindEmpty | public/app.js:407 | the scan returns the first empty slot |
| TeamPanel.Team.AddToTeam | public/app.js:401-415 | the slots become the team after the add, and the outcome is the refusal or the slot filled |
| TeamPanel.Team.RemoveAt | public/app.js:242 | only the chosen slot changes, to empty |
| TeamPanel.Team.Reset | public/app.js:150 | every slot becomes empty |
| TeamPanel.AddUnchangedIff | public/app.js:402-411 | `addToTeam` leaves the team unchanged exactly when a member with the same id is there or no slot is empty |
| TeamPanel.AddFillsFirstEmpty | public/app.js:407-412 | otherwise only the first empty slot changes, to the character |
| TeamPanel.AddKeepsDistinct | public/app.js:401-415 | adding never puts two members with the same id in the team |
| TeamPanel.AddedIsFound | public/app.js:402-412 | after a successful add, the character is found at the slot it filled |
| BreadthFirst.Visits | scripts/fetch-characters.mjs:545-570 | the visit order lists heap nodes not yet seen, each at most once |
| BreadthFirst.FindFrom | scripts/fetch-characters.mjs:268-297 | a node found is in the heap and satisfies the predicate |
| BreadthFirst.FirstMatching | scripts/fetch-characters.mjs:281-283 | the first node of a sequence passing the predicate, or none when none passes; a node returned is in the heap |
| BreadthFirst.FindIsFirstVisit | scripts/fetch-characters.mjs:268-297 | `findMatchingNode` returns the first node, in breadth-first visit order, that satisfies the predicate, and `null` if none does |
| BreadthFirst.FindMatchingNode | scripts/fetch-characters.mjs:268-297 | the queue-and-`seen` loop computes the breadth-first search |
| BreadthFirst.Traverse | scripts/fetch-characters.mjs:545-570 | the loop calls the visitor on exactly the nodes of the visit order, in that order |
| BreadthFirst.TraverseBounded | scripts/fetch-characters.mjs:553-558 | the visitor runs at most once per container, so at most as often as the heap has nodes |
| BreadthFirst.SelfLoopVisitedOnce | scripts/fetch-characters.mjs:545-558 | for every object whose only object children are references to itself, the walk from it visits that object once and nothing else |
| ShapeTests.MatchedHints | scripts/fetch-characters.mjs:306 | there are at most as many matched hints as hints |
| ShapeTests.MatchedHintsIff | scripts/fetch-characters.mjs:306 | a hint is matched exactly when it is a substring of some lower-cased key |
| ShapeTests.TwoHintsMakeCharacter | scripts/fetch-characters.mjs:299-308 | an object whose keys contain two different character hints is character-like |
| ShapeTests.OneHintIsNotEnough | scripts/fetch-characters.mjs:299-308 | an object whose keys contain at most one character hint is not character-like |
| ShapeTests.NikkeNameIsCharacter | scripts/fetch-characters.mjs:304-307 | any object with a `nikkeName` key is character-like, whatever its other keys, because that key holds two hints, `nikkename` and `name` |
| ShapeTests.FirstSameKey | scripts/fetch-characters.mjs:477 | the first own key equal to the key ignoring case, or none |
| Picking.FindSameKey | scripts/fetch-characters.mjs:477 | the `find` scan computes that first key |
| Picking.PickValue | scripts/fetch-characters.mjs:473-475 | a non-object yields `null` |
| Picking.PickLoop | scripts/fetch-characters.mjs:482-512 | the queue-and-`seen` loop computes the breadth-first key search |
| Picking.PickValueRun | scripts/fetch-characters.mjs:472-513 | the method computes `pickValue` |
| Picking.OwnKeyFirst | scripts/fetch-characters.mjs:477-480 | a case-insensitive match among the object's own keys is returned first, even when its value is `null` |
| Picking.PickFromIsFirstHolder | scripts/fetch-characters.mjs:482-512 | the queue loop returns the value under the first matching key of the first object, in breadth-first visit order, that has such a key; nothing when no visited object has one |
| Picking.PickValueFirstHolder | scripts/fetch-characters.mjs:472-513 | when the object's own keys do not decide, `pickValue` is the value held by the first key holder in breadth-first order from the object, or `null` |
| Picking.PickAbsent | scripts/fetch-characters.mjs:472-513 | `pickValue` returns `null` when no object reachable from the argument has a matching key (and the key is not an index of an array argument) |
| Picking.AliasValue | scripts/fetch-characters.mjs:460-467 | one alias yields a present value exactly when the detail or the fallback has one |
| Picking.PickFirst | scripts/fetch-characters.mjs:458-470 | the result is `null` or a present value, and a present result is what one of the aliases yields |
| Picking.PickFirstRun | scripts/fetch-characters.mjs:458-470 | the alias loop with early return computes `pickFirst` |
| Picking.PickFirstFound | scripts/fetch-characters.mjs:459-467 | the first alias with a present value decides the result, the detail before the fallback |
| Picking.PickFirstAbsent | scripts/fetch-characters.mjs:469 | with no present value for any alias the result is `null` |
| Picking.ZeroIsPicked | scripts/fetch-characters.mjs:461 | `0` and `false` count as present for `pickFirst` |
| Picking.NullFallback | scripts/fetch-characters.mjs:464 | a `null` fallback behaves like a fallback object that lacks every alias |
| Picking.ToArray | scripts/fetch-characters.mjs:515-523 | the argument array itself is returned exactly when the value is an array; otherwise a new array of at most one item, empty exactly for the falsy values other than `0` |
| Picking.ToArrayItems | scripts/fetch-characters.mjs:515-523 | `toArray` returns an array unchanged, wraps `0` and every other truthy value in a singleton, and gives `[]` for the other falsy values |
| Slugs.Dashify | scripts/fetch-characters.mjs:347 | every character outside `[a-z0-9-]` becomes `-`, and nothing else changes |
| Slugs.CleanupSlug | scripts/fetch-characters.mjs:331-348 | the URL branch is taken exactly when the trimmed value starts with `http`; otherwise the output uses only `[a-z0-9-]` |
| Text.SqueezeAppend | scripts/fetch-characters.mjs:346 | text ending in a kept character is rewritten on its own, and what follows it as if from the start |
| Text.SqueezeRun | scripts/fetch-characters.mjs:346 | a white-space run that ends the text or is followed by a kept character becomes exactly one fill |
| Text.SqueezeKeepsText | scripts/fetch-characters.mjs:346 | the `\s+` → `-` rewrite keeps every non-white-space character, in order, and adds nothing but dashes |
| Text.SqueezeLength | scripts/fetch-characters.mjs:346 | the rewrite emits exactly one dash per maximal white-space run |
| Slugs.CleanupJoinsWithDash | scripts/fetch-characters.mjs:343-347 | a white-space run between two slug words becomes a single `-`, and both words are kept as they are |
| Slugs.SlugIsFixed | scripts/fetch-characters.mjs:343-347 | a string already made of `[a-z0-9-]` is its own slug |
| Slugs.CleanupIdempotent | scripts/fetch-characters.mjs:332-347 | cleaning a cleaned slug changes nothing, unless the cleaned slug starts with `http`: the URL test is case-sensitive and runs before lower-casing, so `HTTPx` cleans to `httpx`, which then takes the URL branch |
| Slugs.FirstSlugText | scripts/fetch-characters.mjs:316-321 | the first value that is a non-blank string, or none |
| Slugs.IsSlugText | scripts/fetch-characters.mjs:318 | the test is "a string with non-white-space content" |
| Slugs.FirstSlugRun | scripts/fetch-characters.mjs:315-321 | the loop over `slug`, `path`, `url` and `link` returns the first non-blank string found |
| Slugs.ByName | scripts/fetch-characters.mjs:323 | the name is truthy exactly when the `nikkeName` or the `name` pick is; a truthy `nikkeName` pick wins, otherwise the `name` pick is taken as it is |
| Slugs.ResolveSlug | scripts/fetch-characters.mjs:310-329 | a non-object entry has no slug, and a plain slug uses only `[a-z0-9-]` |
| Slugs.ResolveSlugRun | scripts/fetch-characters.mjs:310-329 | the method computes `resolveSlug` |
| Slugs.SlugKeyPrecedence | scripts/fetch-characters.mjs:315-321 | the first slug key holding a non-blank string decides the slug |
| Slugs.SlugSource | scripts/fetch-characters.mjs:310-329 | a resolved slug is the cleaned form of a non-blank string under a slug key or by name; there is none exactly when no such string exists |
| CharacterRecords.SkillArrays | scripts/fetch-characters.mjs:414 | keeps exactly the non-empty arrays whose every element is skill-like |
| CharacterRecords.CollectSkillEntriesRun | scripts/fetch-characters.mjs:411-419 | the visitor loop computes `collectSkillEntries` |
| CharacterRecords.CollectedSkillArrays | scripts/fetch-characters.mjs:411-419 | the collections are exactly the skill arrays among the nodes `traverse` visits, each once |
| CharacterRecords.NormalizeSkill | scripts/fetch-characters.mjs:432-447 | a normalised skill has the fourteen fields in order, each read through its alias chain |
| CharacterRecords.FalsyFallsThrough | scripts/fetch-characters.mjs:433-446 | a falsy first alias (`0` and `false` included) falls through to the second |
| CharacterRecords.KeepMeaningful | scripts/fetch-characters.mjs:449 | every record kept has a truthy field |
| CharacterRecords.KeepMeaningfulIff | scripts/fetch-characters.mjs:449 | a record is kept exactly when it is meaningful |
| CharacterRecords.MeaningfulSkillsIff | scripts/fetch-characters.mjs:432-449 | a record is in the result exactly when it normalises an element of the collection and has a truthy field |
| CharacterRecords.MeaningfulSkillsRun | scripts/fetch-characters.mjs:432-449 | the map-and-filter loop computes the meaningful records |
| CharacterRecords.FirstMeaningful | scripts/fetch-characters.mjs:431-453 | the first collection with a meaningful element, or none |
| CharacterRecords.NormalizeSkillsRun | scripts/fetch-characters.mjs:430-456 | the loop with early return computes `normalizeSkills` |
| CharacterRecords.FirstMeaningfulIs | scripts/fetch-characters.mjs:450-452 | the first collection with a meaningful element is the one returned |
| CharacterRecords.NoMeaningfulSkills | scripts/fetch-characters.mjs:455 | with no meaningful element anywhere, the result is `[]` |
| CharacterRecords.StatsNode | scripts/fetch-characters.mjs:352 | the stats node is `null` or a stats-like object |
| CharacterRecords.NormalizeCharacter | scripts/fetch-characters.mjs:350-400 | the record has the source's fields, in the source's order |
| CharacterRecords.StatsScoped | scripts/fetch-characters.mjs:382-385 | `power`, `hp`, `atk` and `def` are read only from the first stats-like node in breadth-first order, with no fallback, and are `null` when there is none |
| CharacterRecords.DetailFields | scripts/fetch-characters.mjs:357-396 | every other field is `pickFirst` over the detail and then the list entry, independently of the stats node |
| CharacterRecords.NonObjectListEntry | scripts/fetch-characters.mjs:351 | a list entry that is not an object is never consulted |
| CharacterRecords.FindCharacterArray | scripts/fetch-characters.mjs:257-262 | a node found is a non-empty array of character-like elements |
| CharacterRecords.FindCharacterObject | scripts/fetch-characters.mjs:264-266 | a node found is character-like |
| CharacterRecords.EnsureCharacterDetail | scripts/fetch-characters.mjs:240-249 | the result is `null` or character-like, and a character-like value is returned unchanged |
| CharacterRecords.EnsureIdempotent | scripts/fetch-characters.mjs:240-249 | applying `ensureCharacterDetail` to its own result changes nothing |
| CharacterRecords.EnsureFindsFirst | scripts/fetch-characters.mjs:247 | a truthy value that is not character-like yields the first character-like node below it in breadth-first order, or `null` |
| PyValues.ToKey | public/process_nikke_data.py:39 | a value can key a dictionary exactly when it is not a list or a dict |
| PyValues.IndexOf | public/process_nikke_data.py:39 | the position of a key in a dictionary, or none when it is absent |
| PyValues.Put | public/process_nikke_data.py:39 | storing into a dictionary keeps its keys distinct |
| PyValues.PutGet | public/process_nikke_data.py:39 | after `d[k] = v`, `d[k]` is `v` and every other key reads as before |
| PyValues.Successes | public/process_nikke_data.py:173-179 | the records kept are at most as many as the attempts |
| PyValues.SuccessesFrom | public/process_nikke_data.py:173-179 | every record kept is the output of some successful attempt |
| PyValues.SuccessesKeep | public/process_nikke_data.py:173-179 | the number kept is the number of attempts less the number that raise |
| PyValues.SuccessesInOrder | public/process_nikke_data.py:173-179 | the records kept are exactly the values of the attempts that do not raise, each once, in attempt order |
| PyValues.SuccessesComplete | public/process_nikke_data.py:173-179 | every attempt that does not raise has its value kept |
| TableJoin.Index | public/process_nikke_data.py:24-59 | the dictionary built by the loop has distinct keys |
| TableJoin.IndexRun | public/process_nikke_data.py:29-39 | the `for` loop with overwrites computes the index, or the error it raises |
| TableJoin.IndexFailureSticks | public/process_nikke_data.py:29-39 | a record that raises ends the loop with that error |
| TableJoin.IndexFailsOn | public/process_nikke_data.py:29-39 | any record that raises makes the whole loop raise |
| TableJoin.LastWins | public/process_nikke_data.py:39 | the value under a key is the last record stored under it |
| TableJoin.StoredIsFound | public/process_nikke_data.py:39 | every record stored under a key leaves that key present |
| TableJoin.IndexSound | public/process_nikke_data.py:24-59 | every entry is a record that the loop stores under that key |
| TableJoin.VisibleKeysAreResourceIds | public/process_nikke_data.py:31-39 | every kept character is visible with `grade_core_id == 1` (1 when absent) and is filed under its own `resource_id` |
| TableJoin.VisibleRecordKept | public/process_nikke_data.py:31-39 | every visible base-grade record leaves its `resource_id` in the dictionary |
| TableJoin.GetVisibleBaseCharacters | public/process_nikke_data.py:24-41 | a table that is not a dict raises `AttributeError`; the result has distinct keys, and every record kept is visible, of base grade and filed under its own `resource_id` |
| TableJoin.LookupTable | public/process_nikke_data.py:44-50 | a falsy table gives `{}`; the keys are distinct and never `0`, `False`, `None` or `''` |
| TableJoin.CreateLookupTables | public/process_nikke_data.py:43-59 | a skill table that raises does so first; the pair exists exactly when both tables build, and both have distinct keys |
| TableJoin.FalsyIdsSkipped | public/process_nikke_data.py:48-57 | ids of `0`, `None`, `False` or `''` never key a lookup table |
| TableJoin.EmptyWithoutRecords | public/process_nikke_data.py:46-53 | a missing table, or one without `records`, gives an empty lookup table |
| TableJoin.GetElementName | public/process_nikke_data.py:61-73 | the name is one of the five element names or "Unknown", and "Unknown" for an empty or `None` list |
| TableJoin.FirstElement | public/process_nikke_data.py:72 | the lookup of one id gives an element name or "Unknown" |
| TableJoin.ElementRoundTrip | public/process_nikke_data.py:63-72 | each element name is the name of its own id, and no two names share an id |
| TableJoin.FirstIdDecides | public/process_nikke_data.py:71-72 | only the first id of the list matters |
| TableJoin.StatsFromOwnId | public/process_nikke_data.py:79-132 | the output id is `resource_id`; `hp`/`atk`/`def` come from the stat record keyed by the character's own `id` (0 without one); `weapon_type` is "Unknown"; the burst cooldown is `burst_duration`, 0 by default |
| TableJoin.MissingSkillFallbacks | public/process_nikke_data.py:86-132 | each skill entry copies its id, and a skill the lookup misses is named `Skill_<id>` or `Burst_<id>` with the stock description |
| TableJoin.FormatCharacterData | public/process_nikke_data.py:75-142 | an unhashable id raises `TypeError`; the output id is the `resource_id`, and the element is one of the five names or "Unknown" |
| TableJoin.FormatFailsIff | public/process_nikke_data.py:75-142 | formatting raises exactly when an id is unhashable, the element lookup raises, or a critical ratio cannot be divided |
| Consolidation.Outcomes | public/process_nikke_data.py:173-175 | one formatting attempt per base character |
| Consolidation.FormatAllRun | public/process_nikke_data.py:171-179 | the `try`/`append` loop keeps the successful outputs, in order |
| Consolidation.FormatAllExact | public/process_nikke_data.py:173-179 | the formatted list is exactly the outputs of the base characters that format, each once, in dictionary order; every such output is in it, and its length is the number of characters less the failures |
| Consolidation.Insert | public/process_nikke_data.py:182 | one insertion step adds exactly one element |
| Consolidation.SortByKey | public/process_nikke_data.py:182 | sorting permutes the list |
| Consolidation.SortSorted | public/process_nikke_data.py:182 | the sorted list is ascending by `(order, id)` and a permutation of the input |
| Consolidation.InsertSorted | public/process_nikke_data.py:182 | inserting into an ascending list keeps it ascending |
| Consolidation.SortKeepsSorted | public/process_nikke_data.py:182 | sorting an ascending list leaves it as it is |
| Consolidation.SortCharacters | public/process_nikke_data.py:182 | a successful sort permutes the characters |
| Consolidation.Tally | public/process_nikke_data.py:208-211 | the tally has distinct keys |
| Consolidation.TallyRun | public/process_nikke_data.py:208-211 | the counting loop computes the tally, or the `TypeError` of an unhashable rarity |
| Consolidation.TallyRaiseSticks | public/process_nikke_data.py:210-211 | an unhashable rarity makes the tally raise |
| Consolidation.TallyCounts | public/process_nikke_data.py:208-211 | each rarity's count is the number of characters with that rarity, and absent rarities have no entry |
| Consolidation.TotalPut | public/process_nikke_data.py:211 | storing a count changes the total by the difference |
| Consolidation.TallyTotal | public/process_nikke_data.py:208-211 | the rarity counts sum to the number of characters, the `total_characters` of line 189 |
| Consolidation.BaseFormattable | public/process_nikke_data.py:165-175 | every base character has a hashable `resource_id`, so formatting applies to it |
| Consolidation.Main | public/process_nikke_data.py:144-221 | a falsy character table returns 1 before anything else; a lookup table that raises crashes the run; a written run has `total_characters` equal to the number of characters and exit code 0 or 1 |
| Consolidation.Consolidate | public/process_nikke_data.py:164-221 | a character table that is not a dict crashes with `AttributeError`; a written run has `total_characters` equal to the number of characters and exit code 0 or 1 |
| Consolidation.WrittenOutput | public/process_nikke_data.py:144-221 | a written file's `total_characters` equals the number of characters; the characters are exactly the base characters that format; they are sorted by `(order, id)` when those keys are numbers |

## Left out

- **I/O and the user interface.** The DOM and rendering code of public/app.js (`init`, the `render*` functions, `selectCharacter`, `setStatus`, `debounce`) is not modelled. Neither are network loading (`fetchJson`, `tryFetchJson`, the scraper's `main`, `obtainCharacterList`, `obtainCharacterDetail`, `tryReadLocalDetail`, `fetchFromApi`, `downloadPage`, `sleep`) and command-line plumbing (`parseArgs`, `printHelp`). In the Python script, `load_json_file`, the printing, the file write and a write failure are left out. The three tables are parameters of `Consolidation.Main`. Only the exit code of the rarity step is kept.
- **Concurrency.** `mapWithConcurrency` is left out: it only schedules work.
- **HTML extraction.** `extractNextData`, `extractCharacterArray` and `extractCharacterDetailFromHtml` use regular expressions over HTML and `JSON.parse`, so they are left out.
- **Unicode.** Case mapping is ASCII only. The `normalize('NFD')` diacritic strip is not modelled: a non-ASCII character is simply not in `[a-z0-9]`. White space is the ECMAScript set.
- **Floating point and locale.** `formatValue`, `toNumber`, `updateTeamSummary`, the `localeCompare` sort of the filter tags, and the `/ 100` of `critical_rate` and `critical_damage` are left out. Numbers are integers. `TableJoin.FormatCharacterData` checks only that the division would not raise (`Divisible`); it does not compute the quotient.
- **Python numbers.** Python's `1.0 == 1` is not modelled because there are no floats. `True == 1` and `False == 0` are modelled.
- **The id rule at public/app.js:169.** It mixes `??` and `||` without parentheses, which JavaScript rejects. It is left out, and `createCharacterEntry` and `prepareCharacters` with it.
- **`getFieldValue` and `applyFilters`.** They only wire the resolver and `matchesFilter` to the UI state and are left out. The `try`/`catch` around a field's extractor (public/app.js:569-573) depends on exceptions. `SkillsView.ExtractSkillNames` gives `None` where `extractSkills` would throw.
- **The URL branch of `cleanupSlug`.** It runs the foreign `URL` parser. `Slugs.CleanupSlug` reports only that this branch is taken, with the trimmed input.
- **Object identity.** In the scraper, nodes are heap addresses. Two equal objects at different addresses are distinct, as in JavaScript. The browser code's values are JSON trees, which have no identity, so two places there compare by content where JavaScript compares objects by reference:
- Search.CollectExtraTokens: the `Set` of public/app.js:631 and 640-641 keeps two distinct but equal arrays or objects among the extras as two members; the model keeps one. Strings and numbers, the only leaf tokens, are unaffected.
- TeamPanel.FindMember: `member.id === character.id` (public/app.js:402) is false for two distinct but equal object ids; the model treats equal ids as the same. `TeamPanel.Team.FindIndexOf`, `TeamPanel.Team.AddToTeam` and the `AddUnchangedIff`/`AddKeepsDistinct` lemmas inherit this; for string and number ids they agree with the code.
- **The empty-object base.** The `{}` base of `normalizeCharacter` (scripts/fetch-characters.mjs:351) is modelled as `null`. As a `pickFirst` fallback, both yield nothing for every key.
- **Duplicate JSON keys.** Objects are assumed to have unique keys (`WellFormed`). `Lookup` takes the first field of a name.
- Consolidation.SortCharacters: a sort whose `(order, id)` keys are not all numbers (ints or bools) is modelled as raising `TypeError`. Python raises only when it compares values of incomparable types, such as `None` with an int. Keys that are all strings would sort.
- Slugs.CleanupSlug: its own contract gives only the branch taken and the `[a-z0-9-]` charset. The `\s+` → `-` step of line 346 is stated on its own by `Text.SqueezeKeepsText`, `Text.SqueezeLength`, `Text.SqueezeAppend` and `Text.SqueezeRun`. The whole cleanup is stated only for slug words around one white-space run (`Slugs.CleanupJoinsWithDash`).
- TableJoin.FormatCharacterData: requires a hashable `resource_id`, because the model builds the fallback names with `str()` of scalars only. `resource_id` is the dictionary key the record was filed under, so this always holds in `main`.
