# Proofs about the event service

A Dafny model of the stateful and algorithmic core of the event service: the per-title totals of
reactions and reviews with their caches, the recommendation pipeline, the compiled router, the JSON
codec, the session store and its cookie, and the date filter. `dafny verify dfyconfig.toml` checks
the whole project.

## How the model is built

Every store is a class whose fields hold what the database holds (`EventStore`, `ReactionTable`,
`ReviewTable`, `CacheStore`, `LikeGraph`, `SessionStorage`), every service and handler a class whose
methods make the backend calls in the order the Go code makes them. Each method is proved against a
specification function of the old state; the theorems are about those functions, over whole runs.

A backend call can fail. How each call of an operation ends is a parameter: a read succeeds or not,
and a write is acknowledged (`Acked`), has no effect (`Lost`), or takes effect although the caller is
told it failed (`Unacked`). Every run theorem holds for every choice of these parameters.

| files | what they model |
|---|---|
| `Text`, `Rfc3339`, `DateFilter`, `Cookie` | strings, RFC 3339 text of whole seconds in UTC, the `date_from`/`date_to` filter, the session cookie |
| `Backend` | how a database call can end |
| `TitleCache`, `CallRuns` | events, rows keyed by (event id, user) and a TTL cache of an aggregate per title; coherence over any run, for any service of this shape |
| `EventStore`, `Reactions`, `ReactionRuns` | reactions: stores and service, and serial runs with failures |
| `CacheInterleaved`, `ReactionsInterleaved`, `SummariesInterleaved` | every interleaving of single backend calls, for any aggregate counted by partitions; then for reactions and for review summaries |
| `Reviews`, `ReviewRuns`, `ReviewsInterleaved` | reviews and the published average; then creates and updates split into their reads and writes |
| `LikeGraph`, `Recommendations` | the path-count query, deduplication, ranking, and the cached list |
| `RouteTable`, `Router` | the declared routes, and both radix-tree walks |
| `RequiredFields`, `Json`, `JsonSchema`, `JsonCodec`, `JsonRoundTrip`, `JsonShape` | the required-field bit loop, JSON values and tokens, the generated encoders and decoders; what decodes, and what decodes alike, at every level |
| `Sessions`, `SessionRuns`, `SessionRequests`, `SessionsInterleaved` | session hashes, service and handlers; runs of atomic calls; requests interleaved at those calls; then `SetOrUpdate` split into its read and its write |

## What turned out to be conditional

These hold exactly under a condition; each has a theorem that gives it in both directions.

* An event is found under any spelling of the hex digits of its id, but a reaction is stored under the
  spelling of the request while totals are counted under the stored id. A reaction changes the total of
  its title by the user's change if and only if it is spelled as stored, or changes nothing anyway
  (`ReactionRuns.ReactionDelta`); another spelling can publish (0, 0) (`ZeroPublishedExactly`,
  `UncountedSpelling`).
* A right cache entry stays right through a call if and only if the call is not a reaction that changes a
  vote, or a stored review that moves the summary, whose own recount or cache write failed
  (`ReactionRuns.StaysCoherentExactly`, `ReviewRuns.StaysCoherentExactly`).
* An action extends its session for the user it read at its start, so it can undo a login made in between.
  Only logins and POST /session change the user of a live session in exactly the runs where no action
  does this (`SessionRequests.OnlyBindingsChangeExactly`, `ActionUndoesLogin`).
* Two concurrent creates by one user can both pass the existence check, and the second insert then
  replaces the first review. A run replaces no review if and only if no insert whose check failed over a
  row, or was overtaken, takes effect (`ReviewsInterleaved.NothingReplacedExactly`, `TwoCreatesClash`).
* An update reads the row and writes all of it back, so an update of the comment alone can undo a rating
  given since its read. Stored ratings change only by creates and by updates that give one if and only if
  no such write-back takes effect (`ReviewsInterleaved.OnlyGivenRatingsExactly`, `CommentUndoesRating`).
* A decoder keeps the last value of a repeated key, except that a repeated location without a city keeps
  an earlier city (`JsonCodec.RepeatedLocation`).
* A failed existence check is treated as "no such review", so a second create then replaces the stored
  review; one call replaces a review if and only if this happens (`ReviewRuns.ReplacedExactly`).
* The date filter is right for an event, for all bounds, if and only if its UTC start year is at most
  9999 (`DateFilter.FilterIsRightExactly`). Year 10000 is reachable by a negative offset on 9999-12-31.
* A session id survives being written as a cookie and read back if and only if it has no `;` and no
  trailing white space (`Cookie.SidRoundTrip`).
* With calls interleaved, a dead session becomes live again if and only if an update that had read it
  alive writes it back (`SessionsInterleaved.RevivedExactly`), and splitting `SetOrUpdate` is visible
  if and only if the session's liveness changed in between (`SplitIsAtomicExactly`).

## Assumptions

* The MD5 hash of a title is injective, so caches are keyed by the title itself.
* Stored event ids are lower-case ObjectID hex and are fresh; session ids and review ids are fresh.
* Redis executes each command, and each transaction, atomically; a Cassandra partition read is atomic.
* In serial runs all calls of one operation happen at one instant; the interleaved models let time
  pass and other operations run between any two calls.

## Model

| member | source | states |
|---|---|---|
| TitleCache.PublishedUntilExpiry | internal/storage/redis/reaction.go:27-61 | After an overwrite reads return that value through any other writes, exactly until the TTL has passed, and then nothing |
| TitleCache.CacheStore.Set | internal/storage/redis/reaction.go:48-61 | Value and expiry are replaced together, whatever was stored; other titles keep their entries |
| TitleCache.EntryCurrentUnlessPending | internal/service/event.go:206-239 | After any sequence of writes, an entry overwritten in it is the recount unless a row of its title was stored after the last overwrite |
| TitleCache.CoherentUnlessPending | internal/service/event.go:206-321 | From an empty cache a readable entry equals the recount over all events of the title, unless a row was stored after the entry's last overwrite |
| TitleCache.UntouchedRows | internal/service/event.go:304-321 | Creating or editing events, other titles' rows, cache writes and time change no row that counts for a title |
| TitleCache.ReadExactly | internal/service/event.go:275-302 | A read answers iff its lookup succeeds and the entry is readable, or list and count succeed and the recount is zero or its cache write is acknowledged; it answers the entry, else the recount, and writes that recount iff it missed, counted and the recount is not zero |
| TitleCache.SameIdExactly | internal/storage/mongodb/mongodb.go:5-11 | Two spellings name one id iff their 24 hex digits agree in value; the canonical form is the one in lower case |
| CallRuns.Service.CacheIsRecount | internal/service/event.go:206-321 | The same over runs of whole service calls with any failures, for any aggregate: incoherence needs a half-failed call not overwritten since |
| EventStore.EventStore.Create | internal/storage/mongodb/event.go:57-94 | Inserts one document under the database's id and leaves the rest; an error may or may not have inserted it |
| EventStore.FindExactly | internal/storage/mongodb/event.go:245-257 | A lookup that succeeds finds the one stored event whose id is the request or the canonical form of its hex digits, and is "missing" iff there is none |
| EventStore.EventStore.GetEventsByTitle | internal/storage/mongodb/event.go:259-281 | Lists exactly the ids of the events with that title, each once, in some order |
| EventStore.EventStore.PatchEvent | internal/storage/mongodb/event.go:283-334 | Changes only the found document, only for its owner, only the named fields; an empty city is removed; an empty patch writes nothing |
| EventStore.PatchExactly | internal/storage/mongodb/event.go:283-334 | A patch writes exactly the event the request spells, if the caller owns it, a field is named and the write takes effect; it answers an error iff its one call fails, else success iff the caller owns that event |
| EventStore.PatchedExactly | internal/storage/mongodb/event.go:283-334 | Named fields get the new value, an empty city is removed, absent fields and all others keep theirs |
| EventStore.PatchKeepsTitles | internal/storage/mongodb/event.go:283-334 | No patch moves an event between titles, so no patch can invalidate a total |
| Reactions.ReactionTable.UpsertReaction | internal/storage/cassandra/reaction.go:28-40 | One row per (event id, user), the last reaction wins, all other rows stay |
| Reactions.ReactionTable.ScanPartition | internal/storage/cassandra/reaction.go:45-59 | In whatever order rows arrive, the counters end as the number of rows with 1 and with -1 in the partition |
| Reactions.ReactionTable.CountByEventIDs | internal/storage/cassandra/reaction.go:42-66 | The nested loops return the sum of the partition counts |
| Reactions.CountEachIsTally | internal/storage/cassandra/reaction.go:42-66 | Over distinct ids the sum of partition counts is the count of all their rows together |
| Reactions.CountIsRecount | internal/service/event.go:304-321 | Counting the listed ids of a title, in any order, is the recount over every row of every event of the title |
| Reactions.EventService.CreateEvent | internal/service/event.go:77-98 | Only the event store and the graph's titles change; a failed graph write does not fail the call |
| Reactions.EventService.ReactToEvent | internal/service/event.go:206-239 | For every way its six calls can end: which row is stored, whether the entry is overwritten with the recount, the like edge, and the reply |
| Reactions.EventService.Refresh | internal/service/event.go:225-236 | The entry becomes the current recount with a new expiry exactly when list, count and cache write take effect |
| Reactions.EventService.ReactionsByTitleNoCache | internal/service/event.go:304-321 | Answers the recount, or an error if listing or counting fails |
| Reactions.EventService.ReactionsByTitle | internal/service/event.go:275-302 | A hit answers the entry; a miss answers the recount and fills the entry only when it is not (0, 0); any failing call is an error |
| Reactions.ReadKeeps | internal/service/event.go:275-302 | A read changes nothing but its own title's entry and never changes what any title shows |
| Reactions.EventService.ReactionsByTitles | internal/service/event.go:241-256 | Answers iff at the first occurrence of each title the lookup succeeds and the entry is readable, or list and count succeed and the recount is (0, 0) or its cache write is acknowledged; then every title has the pair it showed before the call, and exactly the missing entries are filled |
| Reactions.EventService.AnnotateReactions | internal/service/event.go:126-135 | Answers under the same condition, and then every event of the list has the pair its title showed before the call; only cache entries change |
| ReactionRuns.PendingIsFailedReaction | internal/service/event.go:206-239 | Within one call only a reaction that stored its row and then failed leaves a row unpublished |
| ReactionRuns.CacheIsRecount | internal/service/event.go:206-321 | In every run of create, patch, like, dislike, annotated reads and expiry with any failures, a readable pair is the recount unless such a reaction has not been overwritten since |
| ReactionRuns.ReadIsRecount | internal/service/event.go:275-302 | Under the same condition every annotated read that answers at all answers the recount |
| ReactionRuns.ReactExactly | internal/service/event.go:206-239 | For a stored event: the row is put iff lookup and upsert take effect, the entry becomes the new recount iff moreover list, count and cache write do, and success is answered iff all are acknowledged |
| ReactionRuns.ReactToNothing | internal/service/event.go:206-239 | A reaction to an event that is not stored changes nothing and is answered "not found" iff the lookup succeeds |
| ReactionRuns.EventCallsExactly | internal/service/event.go:77-98 | In the runs, a create that takes effect adds its document and nothing else, a patch changes its target alone, waiting the clock alone |
| ReactionRuns.ReactionDelta | internal/service/event.go:206-239 | The recount after a stored reaction is the previous one with exactly this user's change (add, move across, or nothing) iff the id is spelled as stored or the change is nil |
| ReactionRuns.StaysCoherentExactly | internal/service/event.go:206-302 | From a right readable entry, one call of any kind leaves it right iff it is not a half-failed reaction that changes the vote |
| ReactionRuns.HalfFailureShows | internal/service/event.go:215-236 | The exception is necessary: a half-failed change makes a correct readable entry wrong at once |
| ReactionRuns.UpperCaseSpelling | internal/storage/mongodb/mongodb.go:5-11 | A second spelling of an id exists: 24 upper-case digits name the id with the lower-case ones |
| ReactionRuns.UncountedSpelling | internal/service/event.go:206-239 | A concrete family where the reaction is accepted and stored while (0, 0) is published |
| ReactionRuns.TotalIsPairs | internal/service/event.go:304-321 | Likes plus dislikes is the number of distinct (event, user) pairs under the title |
| ReactionRuns.TotalNeverFalls | internal/service/event.go:206-239 | Over every run the total of every title never decreases |
| ReactionRuns.ZeroPublishedExactly | internal/service/event.go:225-236 | A reaction publishes (0, 0) iff its spelling is uncounted and the title has no row |
| ReactionRuns.NeverCachesZero | internal/service/event.go:206-302 | In every run whose reactions use stored spellings no cached pair is (0, 0) |
| CacheInterleaved.Counter.NextKeeps | internal/service/event.go:206-321 | For any aggregate counted by partitions, every single backend call of any job keeps every entry and every half-done count explained by the history |
| CacheInterleaved.Counter.EachPartIsPart | internal/storage/cassandra/reaction.go:42-66 | If counting apart and adding is counting together, the partition-by-partition count over distinct ids is the count of all their rows |
| CacheInterleaved.Counter.MoveSeen | internal/service/event.go:206-321 | What each single call changes in the stores: a row, an event, the clock, or its own title's entry, and nothing else |
| CacheInterleaved.Counter.ReadableSeen | internal/service/event.go:275-302 | A title can be read in the interleaved model exactly when serial calls can read it, with the same value |
| CacheInterleaved.Counter.WriterAlone | internal/service/event.go:206-239 | A writer can always go on to the end, and if nothing interrupts it, it puts its row and overwrites the entry with the new recount and a new expiry |
| CacheInterleaved.Counter.FillAlone | internal/service/event.go:275-302 | The same for a fill whose recount is worth caching |
| ReactionsInterleaved.EveryEntryExplained | internal/service/event.go:206-321 | Under any interleaving a cached pair is the sum over the event list its writer read of per-event counts, each true at an instant during that operation |
| ReactionsInterleaved.NoReadableEntryIsOld | internal/service/event.go:275-302 | No readable pair uses a count older than the TTL plus the duration of the operation that wrote it |
| ReactionsInterleaved.QuietEntryIsRecount | internal/service/event.go:206-321 | If no row under the title has changed since the writer began, the entry is the recount |
| ReactionsInterleaved.ReactionAlone | internal/service/event.go:206-239 | A reaction whose calls run without interruption leaves what the serial `ReactToEvent` leaves |
| ReactionsInterleaved.FillAlone | internal/service/event.go:275-302 | So does a read that misses and fills |
| SummariesInterleaved.EverySummaryExplained | internal/service/review.go:58-220 | Under any interleaving of review writes, refreshes and fills a cached summary averages per-event counts and sums over one event list, each true at an instant of its writer's operation |
| SummariesInterleaved.NoReadableSummaryIsOld | internal/service/review.go:147-174 | No readable summary uses a count older than the TTL plus the duration of the operation that wrote it |
| SummariesInterleaved.QuietSummaryIsRecount | internal/service/review.go:176-220 | If no review under the title has changed since the writer began, the summary is the recount |
| SummariesInterleaved.QuietRatingInRange | internal/service/review.go:192-197 | And then its rating lies in the range of the title's ratings |
| SummariesInterleaved.CreateAlone | internal/service/review.go:58-80 | A create whose calls run without interruption leaves what the serial `CreateReview` leaves |
| SummariesInterleaved.UpdateAlone | internal/service/review.go:112-145 | So does an update of the caller's own review |
| Reviews.RoundNear | internal/service/review.go:192-195 | Rounding to a tenth is off by at most half a tenth, and by exactly that only towards the integer away from zero |
| Reviews.RoundUnique | internal/service/review.go:192-195 | Only one integer meets these bounds, so they determine the published rating |
| Reviews.RoundMonotone | internal/service/review.go:192-195 | A larger sum over the same count never rounds lower, negative sums included |
| Reviews.StatsEachIsStats | internal/storage/cassandra/review.go:143-163 | Partition by partition, count and sum are those of all rows of the listed events |
| Reviews.SummaryIsRecount | internal/service/review.go:176-198 | The summary computed from a listing of the title is the recount over all its reviews |
| Reviews.RatingInRange | internal/service/review.go:192-197 | If all ratings lie in [lo, hi] so does the published rating |
| Reviews.RatingNearMean | internal/service/review.go:192-197 | The published count is the number of reviews, and the rating is within half a tenth of the exact mean, a tie going away from zero |
| Reviews.ReviewTable.CreateReview | internal/storage/cassandra/review.go:40-62 | Refuses only when the check saw a row; otherwise the row of (event, user) is written anew, even over an unseen one |
| Reviews.ReviewTable.GetReview | internal/storage/cassandra/review.go:86-110 | Returns a row of the event with the requested id, and says "not found" only when there is none |
| Reviews.ReviewTable.UpdateReview | internal/storage/cassandra/review.go:112-141 | Rewrites the row of (event, user) with absent fields kept, id and creation time kept; no row is created |
| Reviews.ReviewTable.GetReviewStatsByEventIDs | internal/storage/cassandra/review.go:143-163 | The nested loops return the sum of the partition statistics |
| Reviews.ReviewTable.ScanRatings | internal/storage/cassandra/review.go:147-159 | In whatever order rows arrive, count and sum end as those of the partition |
| Reviews.ReviewService.CreateReview | internal/service/review.go:58-80 | For every way its calls can end: the row, the refreshed entry and the reply; a failed refresh does not fail the call |
| Reviews.ReviewService.UpdateReview | internal/service/review.go:112-145 | Success, forbidden, not found and error exactly as the requested id belongs to the caller, to another user, to nobody, or a call fails; and the resulting stores |
| Reviews.ReviewService.UpdateReviewCache | internal/service/review.go:200-220 | The entry of the event's title becomes the recount exactly when every call takes effect |
| Reviews.ReviewService.ReviewsByTitleNoCache | internal/service/review.go:176-198 | Answers the recount, or an error if a call fails |
| Reviews.ReviewService.GetReviewsByTitle | internal/service/review.go:147-174 | A hit answers the entry; a miss answers the recount and fills the entry only when there is a review |
| ReviewRuns.CacheIsRecount | internal/service/review.go:58-220 | In every run a readable summary is the recount unless a stored review's own refresh failed and nothing overwrote the entry since |
| ReviewRuns.StaysCoherentExactly | internal/service/review.go:58-220 | From a right readable summary, one call leaves it right iff it does not store a review that moves the title's summary while its own refresh fails |
| ReviewRuns.RunKeepsUniqueIds | internal/storage/cassandra/review.go:40-62 | In every run with fresh ids a review id names one row |
| ReviewRuns.UpdateRewritesRequested | internal/service/review.go:112-145 | The one row an update changes is the row with the requested id; its id, author and creation time stay, rating and comment are the given ones or stay, the update time is now |
| ReviewRuns.UpdateDelta | internal/service/review.go:112-145 | For every title the count stays and the sum moves by new minus old rating if the event is stored under the requested spelling, else not at all |
| ReviewRuns.CreateExactly | internal/service/review.go:58-80 | For a stored event: the row is written iff the check saw none and the insert takes effect, and the summary is refreshed iff the insert is acknowledged and the refresh calls succeed |
| ReviewRuns.UpdateExactly | internal/service/review.go:112-145 | The same for an update: the caller's row of that id is rewritten, and the summary refreshed, iff the calls each needs take effect |
| ReviewRuns.UpdateStatusExactly | internal/service/review.go:112-145 | Success, forbidden and not found, each iff the id is the caller's, another user's, or nobody's (or the event is not stored), and the calls made before that answer succeed |
| ReviewRuns.EventCallsExactly | internal/service/event.go:77-98 | In the runs, a create of an event adds its document and nothing else, a patch changes its target alone, waiting the clock alone |
| ReviewRuns.RaisingRatingNeverLowers | internal/service/review.go:112-198 | Raising one rating never lowers the published rating of any title |
| ReviewRuns.ReplacedExactly | internal/storage/cassandra/review.go:40-62 | A call replaces a stored review iff it is a create whose existence check failed and whose insert takes effect |
| ReviewRuns.ReviewsKeepIdentity | internal/storage/cassandra/review.go:40-141 | In runs whose existence checks succeed every stored review keeps id, author and creation time for good |
| ReviewRuns.ReadRatingInRange | internal/service/review.go:147-198 | In every run without a stale entry a read's rating lies in the range of the title's ratings |
| ReviewsInterleaved.StepKeepsGood | internal/storage/cassandra/review.go:40-141 | Every single read and write of any create or update keeps: one event, author and creation time per review id, and the clash history of every waiting create |
| ReviewsInterleaved.IdNamesOneReview | internal/storage/cassandra/review.go:40-141 | In every interleaving a review id is only ever stored under one event and author, with one creation time |
| ReviewsInterleaved.ReplacedExactly | internal/storage/cassandra/review.go:40-141 | A step replaces a stored review iff it is an insert whose check failed over a row or was overtaken by another insert, or a write-back of a row that has been replaced since it was read |
| ReviewsInterleaved.NothingReplacedExactly | internal/service/review.go:58-145 | A run replaces no review iff no insert whose check failed over a row, or was overtaken, takes effect |
| ReviewsInterleaved.RunKeepsReviews | internal/service/review.go:58-145 | In those runs every stored review keeps id, author and creation time under any concurrency |
| ReviewsInterleaved.StepKeepsReviews | internal/service/review.go:112-145 | In those runs every write-back rewrites the review whose id was requested |
| ReviewsInterleaved.TwoCreatesClash | internal/storage/cassandra/review.go:40-62 | A concrete family: when two creates both check before either inserts, the second replaces the first |
| ReviewsInterleaved.RatingChanges | internal/storage/cassandra/review.go:112-141 | A step changes a stored rating without giving one iff it is a write-back without a rating of a row that was given another rating since it was read |
| ReviewsInterleaved.OnlyGivenRatingsExactly | internal/service/review.go:58-145 | Stored ratings change only by creates and by updates that give one in exactly the runs without such a write-back |
| ReviewsInterleaved.CommentUndoesRating | internal/storage/cassandra/review.go:112-141 | A concrete family: of two updates that both read first, the second changes the comment and undoes the rating of the first |
| ReviewsInterleaved.CreateAlone | internal/storage/cassandra/review.go:40-62 | An insert right after its check writes what the serial create writes, for every way both can end |
| ReviewsInterleaved.UpdateAlone | internal/service/review.go:112-145 | A lookup, a read and a write-back in a row rewrite the caller's own review and no other row, for every way they can end |
| LikeGraph.ScoreIsCommonLikes | internal/storage/neo4j/graph.go:78-94 | The path count of an event equals the sum, over the other users who like it, of the events they and the user both like; zero for an event the user likes |
| LikeGraph.OthersLikesOnlyRaise | internal/storage/neo4j/graph.go:78-94 | Another user's like never lowers a score of the user, so it removes no candidate |
| LikeGraph.LikeGraph.CreateEvent | internal/storage/neo4j/graph.go:42-58 | Sets the node's title; likes and users stay |
| LikeGraph.LikeGraph.AddLike | internal/storage/neo4j/graph.go:60-76 | Merges user, event and edge: a repeated like changes no edge, all other edges stay |
| LikeGraph.LikeGraph.GetRecommendedEventIDs | internal/storage/neo4j/graph.go:78-121 | Whatever records arrive, the loop keeps the well-typed ones, in order, and skips the others |
| LikeGraph.ParseRecordsExactly | internal/storage/neo4j/graph.go:96-152 | The kept recommendations stand for exactly the positions of the well-typed records, in increasing order, with their id, title and score |
| LikeGraph.AnswerIsRanking | internal/storage/neo4j/graph.go:78-152 | The parsed answer holds each positively scored event once with its own score and title, best first, none liked by the user |
| Recommendations.DeduplicateByTitle | internal/service/recommendation.go:149-165 | The loop with its title-to-index map, replacing in place, computes the fold of one-event insertions |
| Recommendations.DedupIsDedup | internal/service/recommendation.go:149-165 | The result has one entry per fetched title, each the earliest start (first fetched on ties), in first-appearance order |
| Recommendations.DedupIncremental | internal/service/recommendation.go:149-165 | dedup(a + b) = dedup(dedup(a) + b), and dedup is idempotent |
| Recommendations.TotalScores | internal/service/recommendation.go:114-117 | The map holds for every title the sum of its recommended scores, zero when absent |
| Recommendations.PipelineRecommends | internal/service/recommendation.go:103-120 | Deduplicating and stably sorting gives each fetched title once, as its kept event, by non-increasing total, ties in first-appearance order |
| Recommendations.RecommendationUnique | internal/service/recommendation.go:103-120 | Only one list has these properties, so they determine the answer |
| Recommendations.TotalIsCommonLikes | internal/service/recommendation.go:114-117 | The total of a title is the sum, over its recommended events in the graph and the other users who like each, of the likes they share with the user |
| Recommendations.TimeOf | internal/storage/mongodb/event.go:362-375 | A stored time always reads as an instant of a four-digit year: its own for text of the UTC form, the zero time for text that is not a time |
| Recommendations.MapEventShows | internal/storage/mongodb/event.go:336-375 | A mapped event carries every field of its document, absent ones as empty or zero, each time as its text reads or else as the first instant of year 1 |
| Recommendations.SaveRestoreAll | internal/service/recommendation.go:58-81 | Converting events to their cached form and back gives the same events, field for field |
| Recommendations.RecommendationService.FetchEvents | internal/service/recommendation.go:103-112 | Events are fetched in score order and failing lookups are skipped: the list of `FetchExactly` |
| Recommendations.FetchExactly | internal/service/recommendation.go:103-112 | The fetched list has one event for each position whose lookup succeeds and finds a stored event, in order, showing that event, and no other |
| Recommendations.RecommendationService.GetRecommendations | internal/service/recommendation.go:57-147 | A hit answers the cached list; a miss answers the one recommendation list and caches it; an empty graph answer caches the empty list |
| Recommendations.MissAnswersFetched | internal/service/recommendation.go:83-120 | On a miss every recommended event whose lookup succeeds has its title in the answer, and every event answered is such an event as it is stored |
| Recommendations.MissRanksByCommonLikes | internal/service/recommendation.go:83-120 | Graph query and pipeline together: a miss lists its titles by the common likes in the graph, non-increasing, ties in first-fetched order |
| Recommendations.HitsRepeatTheMiss | internal/service/recommendation.go:57-147 | Until the entry expires every hit of the user returns exactly the list of the filling miss, whatever happens in between |
| Recommendations.HitsExactly | internal/service/recommendation.go:57-81 | In every run from an empty cache a request finds a list iff a miss of its user cached one less than the TTL ago |
| RouteTable.PlaceIsTable | internal/router/ogen/oas_router_gen.go:77-555 | A node of the tree with its arguments serves a verb iff the declared route of that operation matches segment by segment |
| Router.ServeHTTP | internal/router/ogen/oas_router_gen.go:77-555 | For every prefix, path and verb, cutting the path edge by edge reaches the node its segments name, with those arguments |
| Router.FindPath | internal/router/ogen/oas_router_gen.go:608-1101 | The second copy of the tree reaches the same node with the same arguments |
| Router.TreesAreTable | internal/router/ogen/oas_router_gen.go:77-1101 | Both trees pick an operation and arguments iff the route table does; parameters match any slash-free segment, the empty one included |
| Router.RouteUnique | internal/router/ogen/oas_router_gen.go:77-555 | No request matches two routes, so the order of the tree's branches does not matter |
| Router.AllowedAreAccepted | internal/router/ogen/oas_router_gen.go:77-555 | The methods listed in a not-allowed reply are exactly those `FindPath` accepts for that path |
| Router.NotFoundExactly | internal/router/ogen/oas_router_gen.go:77-555 | A path is answered "not found" iff no method is accepted for it |
| RequiredFields.TrailingZeros8 | internal/router/ogen/oas_json_gen.go:854-887 | Asked only of a non-zero byte, it is the lowest set bit |
| RequiredFields.MissingBelowIsExact | internal/router/ogen/oas_json_gen.go:854-887 | The specified report holds exactly the required-but-unseen fields, each once, ascending |
| RequiredFields.CheckRequired | internal/router/ogen/oas_json_gen.go:854-887 | For any number of mask bytes the popcount and trailing-zeros loop produces that report |
| Json.ParseTokens | internal/router/ogen/oas_json_gen.go:623-689 | Tokens written for a value are read back as that value, leaving what follows |
| JsonSchema.AgreesMark | internal/router/ogen/oas_json_gen.go:712-725 | Setting the bit of a required key keeps the bit set in step with the keys met |
| JsonSchema.AgreesMissing | internal/router/ogen/oas_json_gen.go:854-887 | When the bits are in step, the missing bits are the required keys the object lacks |
| JsonCodec.EncodeLocation | internal/router/ogen/oas_json_gen.go:1702-1720 | Appends the tokens of the object of its set fields |
| JsonCodec.DecodeLocation | internal/router/ogen/oas_json_gen.go:1728-1799 | For every JSON value and every struct decoded into: malformed, exactly the missing names, or the address and city looked up by key, a missing city keeping the old one |
| JsonCodec.EncodeEventReactions | internal/router/ogen/oas_json_gen.go:905-921 | Appends the tokens of the object of both counts |
| JsonCodec.DecodeEventReactions | internal/router/ogen/oas_json_gen.go:929-1002 | For every JSON value: malformed, the missing names, or both counts by key as 64-bit integers; nothing of the old struct survives |
| JsonCodec.EncodeEventReviews | internal/router/ogen/oas_json_gen.go:1018-1034 | Appends the tokens of the object of count and rating |
| JsonCodec.DecodeEventReviews | internal/router/ogen/oas_json_gen.go:1042-1115 | The same for count and rating, the rating being any number |
| JsonCodec.EncodeEvent | internal/router/ogen/oas_json_gen.go:623-689 | Appends the tokens of the object, unset optionals left out, nested objects in place |
| JsonCodec.DecodeEvent | internal/router/ogen/oas_json_gen.go:707-889 | For every JSON value, keys repeated or not, the loop over two mask bytes computes malformed, exactly the missing names, or the event with each field the last value of its key and the location merged |
| JsonCodec.RepeatedLocation | internal/router/ogen/oas_json_gen.go:769-778 | When the location key is repeated the result is the last location iff that one has a city or none of them has |
| JsonCodec.EncodeResponse | internal/router/ogen/oas_json_gen.go:1131-1151 | Appends the tokens of the event array and the count |
| JsonCodec.DecodeEvents | internal/router/ogen/oas_json_gen.go:1169-1184 | Succeeds iff the value is an array of which every element decodes, and gives their values in order |
| JsonCodec.DecodeResponse | internal/router/ogen/oas_json_gen.go:1159-1238 | For every JSON value: malformed, exactly the missing names, or events and count, the last value of each key |
| JsonCodec.EncodeReview | internal/router/ogen/oas_json_gen.go:2229-2265 | Appends the tokens of the seven required fields |
| JsonCodec.DecodeReview | internal/router/ogen/oas_json_gen.go:2278-2411 | For every JSON value: malformed, exactly the missing names, or the review, the last value of each key |
| JsonRoundTrip.EventRoundTrip | internal/router/ogen/oas_json_gen.go:623-889 | Decoding an encoded event gives the same event, unset optionals normalised |
| JsonRoundTrip.ReviewRoundTrip | internal/router/ogen/oas_json_gen.go:2229-2411 | Decoding an encoded review gives the same review |
| JsonRoundTrip.ResponseRoundTrip | internal/router/ogen/oas_json_gen.go:1131-1238 | Decoding an encoded response gives the same response, for any number of nested events |
| JsonRoundTrip.ResponseThroughTokens | internal/router/ogen/oas_json_gen.go:1131-1238 | Encoder, token stream with anything behind it, reader and decoder compose to the identity |
| JsonShape.SameConforms | internal/router/ogen/oas_json_gen.go:707-889 | Typing and required keys at every level do not depend on field order or unknown keys, for any shape |
| JsonShape.LocationSame | internal/router/ogen/oas_json_gen.go:1728-1799 | Locations with the same known members in any order, with any unknown keys, decode alike |
| JsonShape.ReactionsSame | internal/router/ogen/oas_json_gen.go:929-1002 | The same for reactions |
| JsonShape.ReviewsSame | internal/router/ogen/oas_json_gen.go:1042-1115 | The same for review summaries |
| JsonShape.EventSame | internal/router/ogen/oas_json_gen.go:707-889 | The same for events, with order and unknown keys free inside location, reactions and reviews too |
| JsonShape.ResponseSame | internal/router/ogen/oas_json_gen.go:1159-1238 | The same through arrays of events, free at all three levels |
| JsonShape.ReviewSame | internal/router/ogen/oas_json_gen.go:2278-2411 | The same for reviews |
| JsonShape.LocationDecodes | internal/router/ogen/oas_json_gen.go:1728-1799 | Decoding succeeds iff the value is an object whose known members are strings and which has an address |
| JsonShape.ReactionsDecode | internal/router/ogen/oas_json_gen.go:929-1002 | Decoding succeeds iff both counts are there as 64-bit integers |
| JsonShape.ReviewsDecode | internal/router/ogen/oas_json_gen.go:1042-1115 | Decoding succeeds iff count and rating are there, as a 64-bit integer and a number |
| JsonShape.EventDecodes | internal/router/ogen/oas_json_gen.go:707-889 | Decoding succeeds iff every scalar is of its type and every required key is there, in the event and in the objects inside it |
| JsonShape.ResponseDecodes | internal/router/ogen/oas_json_gen.go:1159-1238 | The same at all three levels of a response |
| JsonShape.ReviewDecodes | internal/router/ogen/oas_json_gen.go:2278-2411 | Decoding succeeds iff all seven fields are there and of their types |
| JsonShape.EventReports | internal/router/ogen/oas_json_gen.go:707-889 | An event that is no object or has a known member of a wrong type is malformed; else the names reported missing are exactly the required keys that are absent |
| JsonShape.ResponseReports | internal/router/ogen/oas_json_gen.go:1159-1238 | The same for responses |
| JsonShape.ReviewReports | internal/router/ogen/oas_json_gen.go:2278-2411 | The same for reviews |
| JsonShape.LocationReports | internal/router/ogen/oas_json_gen.go:1728-1799 | The same for locations |
| JsonShape.ReactionsReports | internal/router/ogen/oas_json_gen.go:929-1002 | The same for reactions |
| JsonShape.ReviewsReports | internal/router/ogen/oas_json_gen.go:1042-1115 | The same for review summaries |
| JsonShape.EventKeys | internal/router/ogen/oas_json_gen.go:707-889 | Each scalar field of a decoded event is the last value under its own key, optional ones unset iff the key is absent |
| JsonShape.EventNestedKeys | internal/router/ogen/oas_json_gen.go:707-889 | Its reactions, its reviews and the address of its location are what the last values of their keys decode to, unset iff the key is absent |
| JsonShape.ResponseKeys | internal/router/ogen/oas_json_gen.go:1159-1238 | The events of a decoded response are what the elements of its array decode to, in order, and the count is under its key |
| JsonShape.ReviewKeys | internal/router/ogen/oas_json_gen.go:2278-2411 | Each of the seven fields of a decoded review is the last value under its own key |
| JsonShape.LocationKeys | internal/router/ogen/oas_json_gen.go:1728-1799 | Address and city are the last values under their keys |
| JsonShape.ReactionsKeys | internal/router/ogen/oas_json_gen.go:929-1002 | Likes and dislikes are the last values under their keys |
| JsonShape.ReviewsKeys | internal/router/ogen/oas_json_gen.go:1042-1115 | Count and rating are the last values under their keys |
| Rfc3339.TextOrderIsTimeOrder | internal/storage/mongodb/event.go:67-69 | For years 0 to 9999 byte order on the stored text is time order to the second |
| Rfc3339.ParseFormat | internal/storage/redis/session.go:54-57 | A formatted time with a four-digit year parses back to itself |
| Rfc3339.FormatParse | internal/storage/redis/session.go:54-64 | Any text of the UTC form that parses is reproduced to the letter by formatting the result |
| Rfc3339.ParseExactly | internal/storage/redis/session.go:54-64 | A text reads as a time iff it is that time's UTC calendar fields, zero padded, with a four-digit year |
| DateFilter.ParseDateExactly | internal/router/handler.go:710-720 | A text gives a day iff it is that calendar day's eight digits, no bound iff it is empty, and is refused otherwise |
| DateFilter.DayTextParses | internal/router/handler.go:710-720 | Every calendar date of years 0 to 9999 can be asked for, and reads as that day |
| DateFilter.FilterSelectsDates | internal/storage/mongodb/event.go:206-224 | The string comparison selects an event of a year up to 9999 iff its UTC date lies in the closed interval |
| DateFilter.YearTenThousandMisplaced | internal/storage/mongodb/event.go:206-224 | Every start in UTC year 10000 is wrongly selected by an upper bound of 9999-12-31 |
| DateFilter.FilterIsRightExactly | internal/storage/mongodb/event.go:206-224 | The filter is right for all bounds iff the UTC start year is at most 9999 |
| Cookie.ExtractSID | internal/router/handler.go:930-939 | The scan returns what follows `X-Session-Id=` in the first trimmed piece that starts so, else empty |
| Cookie.ExtractFromPairs | internal/router/handler.go:930-939 | On any semicolon-joined list of well-formed pairs, with any white space around them, it returns the value of the first pair of that name, `=` included |
| Cookie.ReadBack | internal/router/handler.go:930-947 | Reading a written cookie gives the id up to its first `;`, without trailing white space |
| Cookie.SetCookieShape | internal/router/handler.go:941-947 | A written cookie splits into the pair, HttpOnly, the path / and the age, whose digits read as the age, 0 for an empty id |
| Cookie.SidRoundTrip | internal/router/handler.go:930-947 | The id is recovered iff it has no `;` and no trailing white space |
| Sessions.SessionStorage.Set | internal/storage/redis/session.go:33-35 | All three fields of the id get the values and one expiry; other ids stay |
| Sessions.SessionStorage.SetOrUpdate | internal/storage/redis/session.go:37-72 | A live id keeps its creation text, gets the new user and expiry and is the id answered; a dead one leaves it alone, and the fresh id is created and answered; errors as the code reports them |
| Sessions.AnswerIsWritten | internal/storage/redis/session.go:37-72 | The id answered is the id written: kept iff the requested id was live, with its creation text, else the fresh one; all three fields stand there until now plus TTL, every other id reads as before, and exactly which calls fail |
| Sessions.SessionStorage.Get | internal/storage/redis/session.go:74-102 | Answers the three fields, a missing user as empty; no creation or update time is "not found", unreadable text an error |
| Sessions.SessionStorage.Delete | internal/storage/redis/session.go:104-110 | Removes the id and nothing else |
| Sessions.Handler.CreateSession | internal/service/session.go:50-67 | A fresh id bound to the user, both times now |
| Sessions.Handler.CreateOrExtendSession | internal/service/session.go:69-92 | One SetOrUpdate with a fresh id and the current clock: the id answered is live and bound to the user |
| Sessions.Handler.APISession | internal/router/handler.go:96-120 | Without a cookie creates an unbound session, else extends it with an empty user; the reply tells which, and its cookie is the requested id iff that was live, else the fresh one, live and unbound |
| Sessions.Handler.APILogin | internal/router/handler.go:158-196 | Binds the user to the live id or to a fresh one; the cookie carries that id, and the session under it is live and bound to the user |
| Sessions.ReplyIsWritten | internal/router/handler.go:96-196 | The cookie of a login or POST /session names the session that was written for its user: the requested id iff that was live, else the fresh one, called created only then |
| Sessions.Handler.APIRegister | internal/router/handler.go:122-156 | Binds a fresh session only when the request carried none; never touches an existing one |
| Sessions.Handler.APILogout | internal/router/handler.go:198-212 | Deletes the id; a request without one is unauthorized |
| Sessions.Handler.ValidateSession | internal/router/handler.go:623-642 | Allowed with the bound user, denied, or failed |
| Sessions.Handler.Act | internal/router/handler.go:236-268 | An allowed and completed action ends with an extension for the user read at its start; any other leaves the sessions alone |
| SessionRuns.AllOrNone | internal/storage/redis/session.go:112-126 | The three fields of a session are always all readable or none is |
| SessionRuns.NextKeepsInv | internal/storage/redis/session.go:33-126 | Every call keeps: whole hashes, readable times, only issued ids stored |
| SessionRuns.DeadStaysDead | internal/storage/redis/session.go:37-72 | With atomic calls, a deleted or expired id never becomes live again in any run |
| SessionRuns.LogoutIsFinal | internal/router/handler.go:198-212 | After a logout whose delete took effect the id is dead in every continuation |
| SessionRuns.CreationTextKept | internal/storage/redis/session.go:54-64 | Over any run a session that is still live carries its creation text to the letter |
| SessionRuns.AllowedExactly | internal/router/handler.go:623-642 | An action is allowed iff the read succeeds and the id is live and bound to a non-empty user, and then for that user; it fails iff the read of an id fails, and is denied in every other case |
| SessionRuns.ReadExactly | internal/storage/redis/session.go:74-102 | A read fails iff its call does, finds nothing iff the id is dead, and else gives the two times whose texts are stored and the stored user |
| SessionRuns.FreshSession | internal/service/session.go:50-67 | A created session reads as created and updated now, live exactly until now plus TTL, and allows exactly its user, if that is not empty |
| SessionRuns.ExtendLive | internal/storage/redis/session.go:54-72 | Extending a live id changes exactly its hash: creation text kept, update time and user set, one new expiry |
| SessionRuns.ActionExtends | internal/router/handler.go:644-648 | After any calls in between, the final extension of a still live id keeps creation text, leaves the user read at the start, and makes it live exactly until now plus TTL |
| SessionRuns.UserAfterCall | internal/storage/redis/session.go:37-72 | The user of a session that stays live through a call is that of the extension of its id that took effect, if the call is one, else unchanged |
| SessionRequests.HandlersMakeTheirMoves | internal/router/handler.go:96-268 | What each handler does to the hashes is what its move does in the model of interleaved requests |
| SessionRequests.RebindsExactly | internal/router/handler.go:96-268 | With requests interleaved at their storage calls, a move changes the user of a live id iff it is a login or POST /session with another user, or the end of an action that remembers another user |
| SessionRequests.OnlyPostSessionClears | internal/router/handler.go:96-268 | Where logins name a user, a move leaves a live bound id without a user iff it is a POST /session on it that takes effect |
| SessionRequests.BoundStaysBound | internal/router/handler.go:96-268 | In every interleaving without one, a bound id keeps some user for as long as it is live |
| SessionRequests.OnlyBindingsChangeExactly | internal/router/handler.go:236-268 | Only logins and POST /session change users of live ids in exactly the runs where no action extends an id they gave to another user between its read and its extension |
| SessionRequests.QuietRunsKeepToBindings | internal/router/handler.go:236-268 | So in every run where none of them takes effect on an id while an action on it is in flight |
| SessionRequests.ActionUndoesLogin | internal/router/handler.go:644-648 | A concrete family: an action that read the session before a login binds it back to the old user |
| SessionRequests.ActionAlone | internal/router/handler.go:236-268 | An action whose read and extension nothing interrupts leaves what `Act` leaves |
| SessionsInterleaved.AfterKeepsGood | internal/storage/redis/session.go:37-126 | Every read, write, delete and tick keeps: one creation text per id ever, whole hashes, and every waiting update about to rewrite the text it read or a fresh id of its own |
| SessionsInterleaved.OneCreationText | internal/storage/redis/session.go:37-72 | In every interleaving all creation texts ever stored for an id are identical, and its fields are all present or all absent |
| SessionsInterleaved.RevivedExactly | internal/storage/redis/session.go:37-72 | A dead id becomes live iff an update that had read it alive writes it back |
| SessionsInterleaved.DeadWithoutHolderStaysDead | internal/storage/redis/session.go:37-110 | An id that dies while no update holds it is dead for good, whatever runs concurrently |
| SessionsInterleaved.SplitIsAtomicExactly | internal/storage/redis/session.go:37-72 | The late write leaves what an uninterrupted call would leave at that moment iff liveness did not change since the read |

## Left out

- ReactionRuns.CacheIsRecount: serial calls only; under concurrent writers the code does not promise coherence at rest, and `ReactionsInterleaved` states what holds then.
- CacheInterleaved.Counter.NextKeeps: the per-event partition read is one atomic step; reads within a partition are not split further. A writer may store any row under its event; which rows review creates and updates store is in `ReviewsInterleaved`.
- Reactions.EventService.AnnotateReactions: only the reaction part of GetEvents; the review part is the same loop over `GetReviewsByTitle`.
- Recommendations.PipelineRecommends: `sort.SliceStable` is library code and is modelled as stable insertion on values, not in place; the uniqueness theorem shows the choice of algorithm does not matter.
- Recommendations.SaveRestoreAll: the library's JSON text of the cached list is taken as the identity.
- LikeGraph.AnswerIsRanking: Cypher is not executed; the query's answer is any list that satisfies its meaning (groups, counts, order).
- Rfc3339.FormatParse: only the UTC form without fraction that the service writes; `time.Parse` also reads offsets, fractions and lower precision, which no stored text has.
- Recommendations.TimeOf: the same; text with an offset or a fraction, which the service never stores, is not modelled.
- Router.ServeHTTP: operations and arguments only; path normalisation and unescaping come before it, and summaries, path patterns and CORS headers are not modelled.
- JsonCodec.DecodeEventReviews: takes the rating as an exact real rather than a double.
- Json.ParseTokens: starts at tokens; lexing bytes, string escapes and number text belong to the jx library.
- Reviews.RatingNearMean: exact arithmetic; the rounding of IEEE doubles is not modelled.
- Sessions.SessionStorage.SetOrUpdate: the contract is for a call that nothing interrupts; `SessionsInterleaved` drops the mutex and interleaves everything.
- The duplicate-key error of event creation: no index declared here is unique and the database's ids are fresh, so a create either inserts or fails.
- Encoders and decoders of the remaining generated types: the same generated pattern.
- Listing reviews of one event, user accounts, password hashing, regular-expression search, pagination, header and query decoding, single-branch validators, configuration, logging and telemetry.
