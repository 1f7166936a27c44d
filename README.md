# Quiz backend: best-score store and competition ranking

A Dafny model of the scoring and ranking core of the quiz backend's
controller (`controllers/quizController.js`), plus the request handling of
its quiz generator:

- **Best-score upsert** (`saveTestScore`): the store keeps one `TestScore`
  per (testCode, userId). A submission creates the record when there is
  none. Otherwise it overwrites score, totalQuestions and timeTaken only when
  it is strictly better: a higher score, or the same score in less time.
- **Competition ("1224") ranking** of the records of one test code, sorted by
  score descending, then time ascending. The controller computes it twice,
  with two different loops: the in-place loop of `saveTestScore` and the
  `map` of `getLeaderboard`. Both are proved to give each record
  1 + the number of records strictly better than it. That rank does not
  depend on the order of the list, so records that tie on (score, time)
  share a rank, and a record that ties with no earlier one gets its 1-based
  position.
- **The two score handlers**: `saveTestScore` (registry lookup, upsert,
  sorted query, rank pass, write-back, reply) and `getLeaderboard`.
- **Quiz generation** (`generateQuiz`): resolving the parameters from an
  active test code or from the request, with difficulty falling back to
  level; stripping "```json" and "```" and trimming the model's reply; and
  accepting only a non-empty JSON array. Also the static topic table of
  `getTopicsBySubject`.

Files and modules:

| file | module | contents |
|---|---|---|
| wrappers.dfy | `Wrappers`, `Errors` | Option/Result; the failure kinds of the handlers |
| scores.dfy | `Scores` | `TestScore`, the board order, `CompetitionRank` and its lemmas |
| ranking.dfy | `Ranking` | the two ranking loops and their agreement |
| registry.dfy | `Registry` | `TestCode` entries and `findOne` (first match) |
| store.dfy | `Store` | the upsert rule, the store class, the sorted query, store-level ranks |
| controller.dfy | `ScoreHandlers` | `saveTestScore` and `getLeaderboard` |
| text.dfy | `Text` | fence stripping and JavaScript `trim` |
| quiz.dfy | `QuizGeneration` | parameter resolution, `generateQuiz`, `getTopicsBySubject` |

Modelling choices:

- The database is an in-memory map. `Store.TestScores.records` maps
  (testCode, userId) to the record, and the test-code registry is a sequence
  searched for its first match. `TestScore.find({testCode}).sort(...)`
  becomes `FindSorted`, which returns every record of the test code once, in
  board order. The order among exact ties is left open, as it is in the
  database; ties get equal ranks, so nothing depends on it.
- `timeTaken` is a natural number and `score` an integer.
- A request-body field is `Option<string>`. It counts as given when present
  and non-empty, which is how the controller's truthiness tests treat a
  string.
- In `saveTestScore` each record's rank is written and the record saved
  inside one loop. The model computes the ranks in place over an array
  (`AssignRanks`, the loop as written) and then saves the records
  (`SaveAll`). The loop reads only the array, never the store, so the final
  store is the same.
- The upstream model call and `JSON.parse` are function parameters of
  `GenerateQuiz`. The call is given the resolved parameters, from which the
  controller builds its prompt.
- The controller's checks are narrower than a reader might expect, and the
  model keeps them as they are:
  - the question array is accepted whatever its elements look like; the
    controller does not check that each question has four options;
  - a parsed value that is not a non-empty array is thrown and answered
    through the generic upstream error path (HTTP 500 with the thrown
    message); `EmptyQuiz` names that outcome here;
  - `saveTestScore` and `getLeaderboard` accept inactive test codes; only
    `generateQuiz` requires an active one.

## Model

| member | source | states |
|---|---|---|
| `Scores.RankOnSorted` | controllers/quizController.js:168-175 | On a sorted list: the first record has rank 1. A record tied with its predecessor on (score, time) has the predecessor's rank. Any other record has rank index + 1. |
| `Scores.RankBounds` | controllers/quizController.js:164-180 | On a sorted list every rank lies between 1 and the record's 1-based position. |
| `Scores.RankMonotone` | controllers/quizController.js:161-180 | On a sorted list ranks never decrease along the list. |
| `Scores.RankReflectsOrder` | controllers/quizController.js:251-255 | On any list: two ranks are equal iff the records tie on (score, time). A rank is smaller iff its record is strictly better. |
| `Scores.RankIsFirstOfTieGroup` | controllers/quizController.js:168-175 | On a sorted list a record's rank is the 1-based position of the first record of its tie group. |
| `Ranking.AssignRanks` | controllers/quizController.js:164-180 | The saveTestScore loop (seeded from the first record, updating prev only when the rank changes) writes into every record of a sorted, non-empty array its competition rank. Nothing else in the array changes. |
| `Ranking.LeaderboardRanks` | controllers/quizController.js:245-265 | The getLeaderboard map (seeded with -1, updating prev every step) returns each record of a sorted list, in order, carrying its competition rank. |
| `Ranking.RankingsAgree` | controllers/quizController.js:164-265 | On the same sorted, non-empty list the two loops produce identical ranked records. |
| `Registry.FindOne` | controllers/quizController.js:131 | Returns the first registry entry with the code (and active, when asked). Returns None exactly when no entry matches. |
| `Registry.ActiveImpliesRegistered` | controllers/quizController.js:19 | A code that quiz generation accepts (active) is also accepted by score saving and the leaderboard. |
| `Store.Upsert` | controllers/quizController.js:137-158 | Afterwards the pair has exactly one record and every other record is unchanged. A missing record is created with exactly the submitted values and no rank. An existing one changes iff the submission is strictly better; it then takes the submitted score, totalQuestions and time and keeps its key and rank. |
| `Store.UpsertKeepsBest` | controllers/quizController.js:139-147 | After an upsert the submission is never better than the stored record, and the stored record never got worse. |
| `Store.UpsertIdempotent` | controllers/quizController.js:139-147 | Submitting the same result twice leaves the store as submitting it once. |
| `Store.ReplayKeepsBest` | controllers/quizController.js:137-158 | Over any series of submissions for a new pair, the kept record has the score and time of one of them, and none of them is better. |
| `Store.RankedIdempotent` | controllers/quizController.js:164-180 | A second full ranking pass over an unchanged store changes nothing. |
| `Store.ResubmitIsNoOp` | controllers/quizController.js:137-180 | After a save, a submission that does not beat the stored record leaves every record and every rank of the store as it was, including the rewritten ranks. |
| `Store.ListingRankIsStoreRank` | controllers/quizController.js:161-180 | Ranking the sorted query result by position gives 1 + the number of the test's records strictly better. That number does not depend on the order of the listing. |
| `Store.TestScores.Submit` | controllers/quizController.js:137-158 | The store afterwards is `Upsert` of the store before, and every record is still filed under its own key. |
| `Store.TestScores.FindSorted` | controllers/quizController.js:161-162 | Returns every record of the test code exactly once, as stored, sorted by score descending then time ascending. |
| `Store.TestScores.SaveAll` | controllers/quizController.js:178-179 | Every saved record replaces the stored record under its key. The set of keys and all other records are unchanged. |
| `ScoreHandlers.SaveTestScore` | controllers/quizController.js:125-196 | An unknown test code gives NotFound and leaves the store unchanged. Otherwise the store becomes the upserted store with every record of the test carrying its competition rank. The reply carries the caller's stored record, its rank and the number of the test's records. |
| `ScoreHandlers.GetLeaderboard` | controllers/quizController.js:229-281 | An unknown test code gives NotFound. Otherwise: the registry entry's info, plus every record of the test once, sorted, each with its competition rank. When the stored ranks are up to date, every entry equals its stored record. |
| `Text.RemoveFencesLeavesNoFence` | controllers/quizController.js:77 | After the global replace of "```json" and "```", no "```" is left. This holds even where a removal brings backquotes together. |
| `Text.RemoveFencesNoOp` | controllers/quizController.js:77 | Text that contains no "```" passes through the replace unchanged. |
| `Text.RemoveFencesUnwraps` | controllers/quizController.js:76-77 | A reply of the form "```json" + body + "```", with no backquote in body, becomes exactly body. |
| `Text.Trim` | controllers/quizController.js:77 | Removes only white space, and only at the two ends. The result neither starts nor ends with white space. |
| `Text.CleanJsonText` | controllers/quizController.js:77 | The text handed to JSON.parse contains no "```". |
| `Text.CleanIdempotent` | controllers/quizController.js:77 | Cleaning already-cleaned text changes nothing. |
| `QuizGeneration.ResolveParams` | controllers/quizController.js:13-40 | With a test code: NotFound iff no active entry has it; otherwise the entry's subject, topic, chapter and difficulty. Without one: ValidationError iff subject, topic or chapter is missing, or both difficulty and level are. Otherwise the given values, with difficulty if given, else level. The question count defaults to 10 in both cases. |
| `QuizGeneration.TestCodeOverridesDirectParams` | controllers/quizController.js:17-28 | With a test code, the direct parameters in the request do not affect the result. |
| `QuizGeneration.GenerateQuiz` | controllers/quizController.js:8-122 | Resolution failures come back unchanged. Upstream status 403 gives Unauthorized; a reply without text gives InvalidUpstreamResponse; unparsable cleaned text gives InvalidJson. Any other upstream error status, or no response at all, gives UpstreamFailure. A parsed value succeeds exactly when it is a non-empty array; the questions are then its elements, wrapped with the test info iff a test code was given. Any other parsed value gives EmptyQuiz. |
| `QuizGeneration.NoUpstreamCallOnBadRequest` | controllers/quizController.js:17-40 | A request that fails resolution gets the same answer whatever the upstream model and the parser would do, so it is answered before any upstream call. |
| `QuizGeneration.TopicsBySubject` | controllers/quizController.js:284-309 | An empty subject gives ValidationError. A known subject gives exactly its own table entry, six distinct topics. An unknown one gives an empty list. |

## Left out

- The upstream generative-model HTTP call, its headers and API key: a foreign network call. It is a parameter returning a reply, an error status or no response.
- `JSON.parse`: an opaque library parser, a parameter returning a value or nothing.
- The prompt text built from the parameters: an opaque natural-language string.
- Mongoose persistence (`findOne`, `find().sort()`, `save`, `populate` of user names): replaced by the in-memory map, the registry sequence and the sorted listing.
- `getUserTestScores`: a fan-out of database lookups that only attaches registry fields to records.
- `timestamp` (`new Date()`), console logging, HTTP status codes and response shaping.
- Concurrent submissions (lost updates, a leaderboard read during a partial rank rewrite): every handler runs to completion alone.
- `timeTaken` as a JavaScript floating-point number: it is a natural number here.
- Request values of other JavaScript types: numbers, booleans or objects where strings are expected, and `numQuestions` given as null.
- TopicsBySubject: does not model lookups of inherited object properties such as "constructor", which the source's plain-object table would answer with a non-array value.
- server.js: Express wiring, CORS, security headers, rate limiting and the database connection.
