# buddy-ai core in Dafny

This project models the learning logic of buddy-ai, a browser app that
teaches young children English words, and proves properties of it. The
modelled parts are the spaced-repetition scheduler, the spoken-answer
matcher, badge awarding, the progress reducers of the app store, and the
story transition lookup:

- **SpacedRepetition** (`src/spaced-repetition.ts`) covers the per-word
  history records kept under the key `topicId:word`.
  - The `[1, 3, 7, 14, 30]`-day interval ladder.
  - `recordWordSeen`, which updates a stored record in place.
  - The three queries over the stored records.
  - The class `SRData` holds the record map. Beside it sits the key
    insertion order, which is the order `Object.values` gives.
  - `RecordWordSeen` is a method with `modifies this`. Its step-by-step
    field updates are the method `Encounter`, proved against the function
    `Seen`.
- **Speech** (`src/speech.ts`) covers `levenshtein` and `matchWord`.
  - `levenshtein` is a method filling a two-dimensional array with nested
    loops. It is proved equal to the edit-distance recurrence `Lev`.
  - `matchWord` is a function. Its contract lists the accepting conditions
    as an if-and-only-if.
- **Collectibles** (`src/collectibles.ts`) covers the 23 badges, their rules
  and `checkNewBadges`.
  - The rules are the datatype `Rule`, interpreted by `RuleHolds`.
  - `checkNewBadges` takes the earned list as a parameter and returns the
    new badges, the new earned list and whether it would be saved.
  - Its loop is proved against the in-order filter `Eligible`.
  - `totalWordsLearned` is a loop over the topic map, proved against a sum.
- **Catalog** (`src/data.ts`) holds the five topics of the word catalog as a
  constant, together with `TOPICS.find`.
- **Store** (`src/store.ts`) covers `getProgress` and the reducer bodies of
  `markWordLearned`, `recordGameAnswer` and `recordGamePlayed`. They are pure
  functions over the `profileId -> ProgressData` map.
- **Stories** (`src/stories.ts`) covers the eight topic stories and
  `getTransition`.
- **Common** and **Wrappers** hold `Min`, `Max`, `NoDuplicates` and
  `Option`.

Modelling choices:

- **Time:** the current time is the parameter `now`, in milliseconds. The
  ISO timestamp written to `lastPlayed` is the parameter `timestamp`.
- **Difficulty** is kept in integer tenths:
  - a fresh record starts at 3 (0.3);
  - a correct answer lowers it by 1, floored at 0;
  - a wrong answer raises it by 2, capped at 10.
- **Missing topic:** the optional `topicId` of `getWordsDueForReview` is a
  string, with `""` standing for an absent one. Both are falsy in the
  source.
- **ProfileProgress** is imported from `src/data.ts`, but that file does not
  declare it. It is modelled from its uses: a map from topic id to a
  `wordsLearned` list, and a `streak`.

The code and the ladder it declares (`INTERVALS`, starting at 1 day, at
`src/spaced-repetition.ts:22`) disagree in one place: the interval after the
first correct answer on a new word.

- A fresh record starts with interval 0, which is not on the ladder.
- `indexOf` returns -1, which the code treats as rung 0.
- The first correct answer therefore moves the word to rung 1, 3 days, and
  never visits the 1-day rung.
- The model follows the code (`FirstCorrectEncounter`, `CorrectRunFromSeed`).
  The 1-day rung is reached only after a wrong answer (`WrongResetsLadder`).

## Model

| member | source | states |
|---|---|---|
| Catalog.FindTopic | src/collectibles.ts:57 | `None` exactly when no topic has the id; otherwise the first topic with that id |
| Catalog.CatalogIds | src/data.ts:17-100 | the catalog has five topics: animals, colors, numbers, food, body, in that order |
| Catalog.CatalogSize | src/data.ts:17-100 | the topics hold 15, 10, 10, 12 and 10 words, 57 in all |
| SpacedRepetition.WordKey | src/spaced-repetition.ts:35-37 | the key is the topic id, a colon, then the word |
| SpacedRepetition.WordKeyInjective | src/spaced-repetition.ts:35-37 | two pairs share a key only if they are equal, provided topic ids hold no colon |
| SpacedRepetition.WordKeyCollision | src/spaced-repetition.ts:35-37 | with a colon in the topic id, ("a:b", "c") and ("a", "b:c") share one record |
| SpacedRepetition.IndexOf | src/spaced-repetition.ts:53 | -1 exactly when the value is absent; otherwise its first position |
| SpacedRepetition.NextInterval | src/spaced-repetition.ts:53-55 | a correct answer moves a ladder interval one rung up, capped at 30; any off-ladder interval goes to 3; the result is never 1 |
| SpacedRepetition.Seen | src/spaced-repetition.ts:47-64 | one encounter: timesSeen and exactly one of timesCorrect/timesWrong go up by one; lastSeen is now; the interval climbs or resets to 1; difficulty moves by -1 (floor 0) or +2 (cap 10); nextReview is now plus interval days |
| SpacedRepetition.SeedWellFormed | src/spaced-repetition.ts:42-45 | a fresh record satisfies the record invariant (counters agree, difficulty in 0..10, interval on the ladder or 0 while unseen, nextReview = lastSeen + interval days) |
| SpacedRepetition.SeenWellFormed | src/spaced-repetition.ts:47-64 | every encounter keeps the record invariant, and takes the interval off 0 |
| SpacedRepetition.CorrectClimbsOneRung | src/spaced-repetition.ts:53-55 | on rung i, a correct answer lands on rung min(i+1, 4) |
| SpacedRepetition.CorrectRunFromSeed | src/spaced-repetition.ts:42-55 | from a fresh record, n correct answers in a row give rung min(n, 4) and n correct answers counted |
| SpacedRepetition.WrongResetsLadder | src/spaced-repetition.ts:60-64 | any wrong answer sets the interval to 1 and the next review one day ahead |
| SpacedRepetition.Seed | src/spaced-repetition.ts:42-45 | the fresh record for a word: its word and topic, zero counters, seen and due now, interval 0, difficulty 3 tenths |
| SpacedRepetition.Existing | src/spaced-repetition.ts:42-45 | the stored record when the key is present, otherwise the fresh record |
| SpacedRepetition.FirstCorrectEncounter | src/spaced-repetition.ts:42-64 | the first, correct answer on a new word gives interval 3, difficulty 2 tenths, review in 3 days |
| SpacedRepetition.ValuesOf | src/spaced-repetition.ts:71 | `Object.values`: the stored records in key insertion order |
| SpacedRepetition.StoreKeepsKeys | src/spaced-repetition.ts:65 | storing under a key keeps the insertion-order key list duplicate-free and equal to the key set |
| SpacedRepetition.Encounter | src/spaced-repetition.ts:47-64 | the step-by-step field updates produce exactly `Seen` of the looked-up record |
| SpacedRepetition.EncounterKeepsWellFormed | src/spaced-repetition.ts:39-67 | if every stored record is well formed, so is every record after an encounter |
| SpacedRepetition.SRData.Values | src/spaced-repetition.ts:71 | `Object.values(data.words)`: one record per key, in key insertion order, and every stored record among them |
| SpacedRepetition.SRData.constructor | src/spaced-repetition.ts:28 | the empty default: no records, all three review counters 0 |
| SpacedRepetition.SRData.RecordWordSeen | src/spaced-repetition.ts:39-67 | only the record under `topicId:word` is created or replaced (by `Seen` of the old or fresh record); a new key is appended to the order; the review counters are unchanged; the record invariant of all records is kept |
| SpacedRepetition.DueOnly | src/spaced-repetition.ts:72 | exactly the due records, each as often as stored |
| SpacedRepetition.DueOnlyAppend | src/spaced-repetition.ts:72 | the due filter distributes over concatenation, so it keeps the stored order |
| SpacedRepetition.TopicOnly | src/spaced-repetition.ts:73 | exactly the records of the topic, or all when the topic id is empty |
| SpacedRepetition.TopicOnlyAppend | src/spaced-repetition.ts:73 | the topic filter distributes over concatenation, so it keeps the stored order |
| SpacedRepetition.Insert | src/spaced-repetition.ts:74 | insertion into a list sorted hardest first keeps it sorted and adds exactly the new record |
| SpacedRepetition.SortByDifficulty | src/spaced-repetition.ts:74 | the result is sorted by non-increasing difficulty and is a permutation of the input |
| SpacedRepetition.WordsDueForReview | src/spaced-repetition.ts:69-75 | exactly the seen records whose review time has come, within the topic if one is given, as a permutation sorted hardest first |
| SpacedRepetition.AllLearnedWords | src/spaced-repetition.ts:77-79 | exactly the records seen at least once |
| SpacedRepetition.AllLearnedAppend | src/spaced-repetition.ts:77-79 | the learned filter distributes over concatenation, so it keeps the stored order |
| SpacedRepetition.IsWordDueForReview | src/spaced-repetition.ts:81-86 | false with no record under the key, otherwise whether that record is due |
| SpacedRepetition.DueLookupMatchesDueList | src/spaced-repetition.ts:69-86 | for a stored key, the single-word check agrees with membership of its record in the unfiltered due list built from `SRData.Values` |
| SpacedRepetition.UnseenNeverDue | src/spaced-repetition.ts:72-78 | a record never seen is neither due nor learned |
| SpacedRepetition.DueAreLearned | src/spaced-repetition.ts:72-78 | every due record is a learned record |
| Speech.Levenshtein | src/speech.ts:73-86 | the table method returns the edit distance of the recurrence with `d[i][0] = i`, `d[0][j] = j` and unit costs |
| Speech.LevStep | src/speech.ts:80-84 | an inner cell is the minimum of deletion, insertion and (free on equal characters) substitution |
| Speech.LevSelf | src/speech.ts:75-84 | the diagonal of a string against itself is 0 |
| Speech.EditDistanceSelf | src/speech.ts:75-84 | a string is at distance 0 from itself |
| Speech.EditDistanceEmpty | src/speech.ts:75-77 | the empty string is at distance `b.length` from `b` |
| Speech.LevLowerBound | src/speech.ts:75-84 | a prefix distance is at least the difference of the prefix lengths |
| Speech.LevUpperBound | src/speech.ts:75-84 | a prefix distance is at most the longer prefix length |
| Speech.EditDistanceBounds | src/speech.ts:73-86 | the distance lies between the length difference and the longer length |
| Speech.LevSymmetric | src/speech.ts:80-84 | the recurrence is symmetric in its two strings |
| Speech.EditDistanceSymmetric | src/speech.ts:73-86 | `levenshtein(a, b) == levenshtein(b, a)` |
| Speech.ToLowerChar | src/speech.ts:63-64 | ASCII upper-case letters map to lower case; every other character is kept |
| Speech.Lower | src/speech.ts:63-64 | lower-casing maps every character and keeps the length |
| Speech.TrimStart | src/speech.ts:63-64 | removes exactly the leading white space |
| Speech.TrimEnd | src/speech.ts:63-64 | removes exactly the trailing white space |
| Speech.LowerIdempotent | src/speech.ts:63-64 | lower-casing twice is lower-casing once |
| Speech.LowerSlice | src/speech.ts:63-64 | lower-casing commutes with taking a slice |
| Speech.TrimIsSlice | src/speech.ts:63-64 | the trimmed string is a contiguous slice of the input |
| Speech.Normalize | src/speech.ts:63-64 | `toLowerCase().trim()`: no longer than the input, no ASCII upper-case letter left, and no white space at either end |
| Speech.TrimmedLowerShape | src/speech.ts:63-64 | the same three facts about trimming the lower-cased string |
| Speech.TrimEnds | src/speech.ts:63-64 | a trimmed string is empty or starts and ends with a non-white-space character |
| Speech.NormalizeIdempotent | src/speech.ts:63-64 | normalising (lower-case, then trim) twice is normalising once |
| Speech.Contains | src/speech.ts:66 | `includes`: an occurrence at some position; a contained string is no longer than the container |
| Speech.ContainsEnds | src/speech.ts:66 | a string contains its own prefix and suffix of each length |
| Speech.ContainsSelfAndEmpty | src/speech.ts:66 | every string contains itself and the empty string |
| Speech.MatchWord | src/speech.ts:62-71 | true exactly when, on normalised forms, one contains the other, or the distance is at most 1 for targets of up to 4 characters, or at most 2 for longer targets |
| Speech.MatchDependsOnNormalForms | src/speech.ts:63-64 | the answer depends only on the normalised forms of both strings |
| Speech.SameNormalFormMatches | src/speech.ts:66 | equal normalised forms match |
| Speech.BlankTranscriptMatches | src/speech.ts:66 | an empty or all-white-space transcript matches every target |
| Speech.SmallEditsMatch | src/speech.ts:68-69 | distance 1 always matches; distance 2 matches targets longer than 4 |
| Speech.FarLengthsReject | src/speech.ts:66-70 | a normalised transcript whose length differs from the target's by more than 2, with neither containing the other, is rejected |
| Collectibles.TotalLearnedRemove | src/collectibles.ts:44-50 | the learned total does not depend on the order the topics are summed in |
| Collectibles.TotalWordsLearned | src/collectibles.ts:44-50 | the loop returns the sum of the `wordsLearned` lengths over all topics |
| Collectibles.TotalWordsAvailable | src/collectibles.ts:52-54 | the catalog holds 57 words |
| Collectibles.AllWordsInTopic | src/collectibles.ts:56-62 | false for a topic missing from the catalog or from the progress; otherwise whether the learned list is at least as long as the catalog topic |
| Collectibles.AllWordsInCatalogTopic | src/collectibles.ts:56-62 | for the topic at a catalog position: complete exactly when it has a progress entry whose learned list is as long as the topic's words |
| Collectibles.RuleHolds | src/collectibles.ts:64-111 | the three catalog-dependent rules: `explorer` needs 5 started topics, `half_way` 29 learned words, `champion` 57; a topic rule holds only for a topic with progress |
| Collectibles.WordCountBadges | src/collectibles.ts:64-106 | `first_words`, `word_collector`, `word_master`, `half_way` and `champion` hold exactly from 1, 25, 50, 29 and 57 learned words |
| Collectibles.TopicBadgesFirst | src/collectibles.ts:67-70 | `animal_friend` holds exactly when the animals list has at least 15 words, `color_master` when the colors list has at least 10 |
| Collectibles.TopicBadgesNumbers | src/collectibles.ts:71-72 | `number_ninja` holds exactly when the numbers list has at least 10 words |
| Collectibles.TopicBadgesRest | src/collectibles.ts:73-76 | `foodie` holds exactly from 12 food words, `body_expert` from 10 body words |
| Collectibles.StreakBadges | src/collectibles.ts:77-80 | `streak_star` and `super_streak` hold exactly from a streak of 3 and 7 |
| Collectibles.GameBadges | src/collectibles.ts:85-90 | `perfect_score`, `memory_champ` and `bubble_popper` hold exactly from one perfect quiz, memory win and bubble win |
| Collectibles.ReviewBadges | src/collectibles.ts:91-102 | `review_pro` from 5 review sessions, `sharp_mind` from a best review streak of 10, `explorer` from 5 started topics |
| Collectibles.PlayBadges | src/collectibles.ts:107-110 | `consistent` from 10 days played, `speed_learner` from 10 words in one session |
| Collectibles.AlphabetIncomplete | src/collectibles.ts:56-58 | the alphabet topic is never complete, since the catalog has no such topic |
| Collectibles.ShapesIncomplete | src/collectibles.ts:56-58 | nor is the shapes topic |
| Collectibles.MathIncomplete | src/collectibles.ts:56-58 | nor is the math topic |
| Collectibles.BadgeIdsDistinct | src/collectibles.ts:64-111 | 23 badges with pairwise different ids |
| Collectibles.TopicIdsDistinct | src/data.ts:17-100 | catalog topic ids are pairwise different |
| Collectibles.EligibleMembers | src/collectibles.ts:118-122 | a badge is awarded exactly when it is listed, its id is not earned, and its rule holds |
| Collectibles.EligibleIdsFrom | src/collectibles.ts:118-122 | awarded ids were not earned before and are ids of listed badges |
| Collectibles.EligibleIdsDistinct | src/collectibles.ts:118-122 | on a list with distinct ids, no id is awarded twice |
| Collectibles.AwardStep | src/collectibles.ts:118-122 | from a state where the loop invariant holds for the first i badges, one iteration (append when the id is not in the growing earned list and the badge qualifies) re-establishes it for i + 1, duplicate-freedom included |
| Collectibles.AwardInOrder | src/collectibles.ts:117-123 | given the check applied to the current state as a predicate, the loop awards exactly the eligible badges in list order; the earned list becomes the old list followed by their ids; no duplicate id is introduced |
| Collectibles.CheckNewBadges | src/collectibles.ts:113-126 | over `BADGES`, with each badge's rule evaluated on the profile's state: the eligible badges in order, the extended earned list, and a save exactly when something was awarded (so an unchanged list is not saved) |
| Collectibles.SecondCallAwardsNothing | src/collectibles.ts:119 | a second call with the updated earned list awards nothing |
| Collectibles.UnreachableTopicBadges | src/collectibles.ts:95-100 | the rules of `abc_master`, `shape_finder` and `math_wizard` (badges 15 to 17) never hold, since their topics are not in the catalog |
| Collectibles.NestedThresholds | src/collectibles.ts:64-106 | on the rules of the listed badges: `word_master` implies `word_collector` implies `first_words`; `super_streak` implies `streak_star`; `champion` implies `half_way` |
| Store.GetProgress | src/store.ts:79-88 | the stored record, or empty `wordsLearned`, zero counters and empty `lastPlayed` |
| Store.LearnedIn | src/store.ts:93 | `p.wordsLearned[topicId]`, or `[]` when falsy: the stored list when the topic is present, otherwise empty |
| Store.Dedup | src/store.ts:93-95 | the Set of a list: no duplicates, the same members, no longer than the list |
| Store.DedupOfDistinct | src/store.ts:93-95 | a duplicate-free list passes through the Set unchanged |
| Store.DedupSnoc | src/store.ts:93-95 | adding a word to the Set appends it unless it is already there |
| Store.AddLearned | src/store.ts:91-97 | the topic's list has no duplicates and holds exactly the old words plus the word; other topics and all counters are unchanged; `lastPlayed` is the timestamp |
| Store.MarkWordLearned | src/store.ts:90-99 | only the profile's record changes, as `AddLearned` says; other profiles are unchanged |
| Store.MarkKeepsOrder | src/store.ts:93-95 | on a duplicate-free list, the existing order is kept and a new word is appended at the end |
| Store.AddLearnedIdempotent | src/store.ts:91-97 | recording the same word again, with any second timestamp, changes only `lastPlayed` to that timestamp |
| Store.MarkIdempotent | src/store.ts:90-99 | marking the same word again, with any second timestamp, changes only that profile's `lastPlayed` |
| Store.RecordGameAnswer | src/store.ts:101-110 | one more answer; correct adds one to correct answers and streak, wrong resets the streak to 0; other profiles unchanged |
| Store.RecordGamePlayed | src/store.ts:112-118 | only `gamesPlayed` changes, by one; `lastPlayed` is untouched |
| Store.AnswersTally | src/store.ts:104-106 | after a run of answers, the totals grow by the run's length and its correct answers, and the streak counts the correct answers since the last wrong one |
| Store.GetProgressPlausible | src/store.ts:79-88 | the default record satisfies `0 <= streak <= correctAnswers <= totalAnswers` |
| Store.ReducersKeepPlausible | src/store.ts:90-118 | all three reducers preserve `0 <= streak <= correctAnswers <= totalAnswers` for every profile |
| Stories.FiveTransitions | src/stories.ts:9-98 | every story has exactly five transitions |
| Stories.EightStories | src/stories.ts:9-98 | stories exist for exactly the eight topic ids |
| Stories.GetTransition | src/stories.ts:100-104 | `""` for a topic id that is not one of the eight story keys; otherwise `transitions[index % 5]`, one of the story's transitions |
| Stories.TransitionPeriodic | src/stories.ts:103 | adding the number of transitions to the index gives the same transition |
| Stories.TransitionsInOrder | src/stories.ts:103 | indexes 0 to 4 walk through the transitions in order |

## Left out

- Storage: `localStorage` and JSON loading and saving are not modelled (`loadSRData`/`saveSRData`, `loadGameStats`/`saveGameStats`, `loadEarnedBadges`/`saveEarnedBadges`, `loadProgress`/`saveProgress`). They are I/O; only the empty default of `loadSRData` is modelled (`SRData.constructor`), and game stats enter the rules as a parameter.
- Clock: `Date.now()` and `new Date().toISOString()` are replaced by the parameters `now` and `timestamp`.
- Store plumbing: the Effect `Ref` (`initStore`, `getState`, `updateState`, `run`), persistence after each update and listener notification (`subscribe`) are left out. They are effect plumbing around the pure reducers.
- Other app state: the fields of `AppState` other than `progress` are not modelled, because the reducers copy them unchanged.
- Speech APIs: `speak` and `listen` in `src/speech.ts` drive browser speech APIs with promises and timers.
- Presentation: `src/main.ts`, `src/buddy-svg.ts`, `src/character.ts` and `src/particles.ts` are DOM, canvas and animation code.
- Session composition (choosing new and due words for a lesson) is not implemented in any of these files.
- SpacedRepetition.Seen: difficulty is exact tenths, not IEEE doubles. The source's repeated `- 0.1`/`+ 0.2` drifts off the tenths (0.3 - 0.1 is not exactly 0.2), and that drift is not modelled.
- SpacedRepetition.SRData.RecordWordSeen: the source mutates the stored record object and returns the same `data` object. The method updates the object in place and returns nothing. Other references to the same `WordHistory` object are not modelled.
- SpacedRepetition.WordHistory: counters are `nat`. Records parsed from storage with other values are not modelled.
- SpacedRepetition.SortByDifficulty: the body is a stable insertion sort, like `Array.prototype.sort`. Its contract states only sortedness and permutation, not stability.
- Speech: strings are sequences of Unicode characters, not UTF-16 code units. Lengths and edit distances of text outside the Basic Multilingual Plane therefore differ from the source's.
- Speech.ToLowerChar: only ASCII letters are lower-cased. The Unicode case mappings of `toLowerCase` are not modelled. Trimming uses the ECMAScript white-space and line-terminator set.
- Collectibles.TotalWordsLearned: the loop takes topics in an arbitrary order instead of `Object.values` order. The sum is the same (TotalLearnedRemove).
- Collectibles.CheckNewBadges: the learned total is computed once per call instead of once per rule that reads it. The rules are pure, so the value is the same.
- Collectibles.CheckNewBadges: the earned list is a parameter rather than read with `loadEarnedBadges`. The new list is returned, together with the save decision, rather than written with `saveEarnedBadges`.
- Collectibles.Badge: the `check` lambdas are the `Rule` datatype interpreted by `RuleHolds`. Badge names, emojis and hints are carried as data.
- Stories.GetTransition: `index` is a `nat`. For a negative index the source's `%` gives a negative array index and `undefined`, which is not modelled.
- Prototype keys: plain JavaScript objects resolve missing keys through `Object.prototype`, so keys such as `toString`, `constructor` or `__proto__` find inherited members. With them `getTransition("toString", 0)` throws a TypeError, and `getProgress` returns the `Object` function for the profile id `constructor`, after which `markWordLearned` throws and `recordGameAnswer` stores NaN counters, and `markWordLearned` with the topic id `toString` builds a `Set` from a function and throws; scheduler keys always contain a colon and cannot meet these names. The model's maps hold only the stored keys, so these keys take the empty or default path.
- Stories: intros and conclusions are carried as data; no modelled operation reads them.
