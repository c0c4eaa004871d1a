# Research platform: a verified model of the backend

The backend is a FastAPI service whose service layer is a set of small transactional state machines, with a few
algorithms beside them. This project models that layer in Dafny 4.11 and proves what it is built to guarantee. The
database is a record of in-memory tables, one service call is one atomic step, and the clock never goes backwards. Every
table that calls change in place is a field of a class whose methods follow the source statement by statement; each such
method is proved equal to a function on the tables, and the properties are proved about those functions over whole runs.

`dafny verify dfyconfig.toml` checks everything.

| files | part of the system |
|---|---|
| `Base`, `Users`, `Sorting` | identifiers, time, accounts, stable sorting and collecting |
| `Bookings`, `BookingAnswers` | equipment bookings, the EXCLUDE constraint, availability, booked time |
| `Scoring`, `Recommender`, `Evaluation` | item scores, the top-k recommender, precision and nDCG |
| `RateLimit` | the sliding-window limiter against the full history |
| `Accounts`, `Sessions`, `Administration`, `AccountRuns`, `AccountSafety`, `AccountAuthority`, `AccountTraces`, `AccountAnswers`, `AccountService` | refresh tokens, roles, deletion, promotion |
| `ThreadMerge` | migration 0021 |
| `Network`, `Departments`, `AcademicYear` | analytics: the collaboration graph, the comparison of departments, academic years |
| `Board`, `BoardReading`, `BoardRuns`, `BoardAnswers`, `BoardService` | announcements |
| `Applications`, `Openings`, `OpeningRuns`, `OpeningSafety`, `OpeningPlaces`, `OpeningAnswers`, `OpeningService` | openings, applications and their notices |
| `Reminders`, `ReminderJobs` | the reminder jobs and the dedupe key |
| `IndexCache` | the TF-IDF cache under interleaved callers |

## What the proofs found

Where the obvious claim is false of the code, the model keeps the code and proves when the claim holds.

- Approving a booking does not look at the clock (backend/app/modules/bookings/service.py:261-271). Approved and completed
  bookings can overlap; `Bookings.ApprovalIsSafeExactlyUntilTheStart` gives the missing guard exactly.
- The participant upsert of migration 0021 touches one row twice when somebody has rows in two duplicates of one thread,
  and PostgreSQL then refuses. With both people in every thread that means: two threads per pair merge, three abort
  (`ThreadMerge.TwoThreadsPerPairIsTheLimit`, with the input in `ThreadMerge.ThreeThreadsAbort`), although the migration
  describes merging any number.
- The rate limiter reads the clock before it takes its lock (backend/app/core/rate_limit.py:51-53), so two callers can
  reach the log out of order, and then each of the five limiters in the file can let one call too many through
  (`RateLimit.LimitHoldsExactlyInOrder`, with the calls in `RateLimit.OutOfOrderBreaksTheLimit`). The results on the
  limit, on refusals and on pruning hold when the order at the lock is the order of the clock readings.
- Labels of academic years ending in 99, and of years before 1000, do not read back (`AcademicYear.LabelsReadBackExactly`).
- Besides the two-person promotion, an administrator can set the administrator role outright through a role change; the
  promotion and the step down set the role without re-deriving scope and department (`Administration.RoleStepsAndScope`,
  with a run in `AccountAuthority.PromotionAndStepDownLeaveScopeBehind`).
- The page of manageable people lists rows for an unverified faculty member that the delete call refuses
  (`Administration.ListedExactlyWhenDeletable`).
- The last-administrator guard can never refuse a role change, because the actor is an active administrator other than
  the target (`AccountAnswers.ChangeRoleAnswers`); it matters when administrators switch themselves off or step down.
- A notice can be edited or published only by its author, and a draft is visible to its author alone, so the "not yours"
  answer to an edit cannot occur (`Board.EditsAreRefusedByStatus`).
- Equipment utilisation adds up items that share a name, so a row can show more hours than there are, and does not for
  any database exactly when no two items share the name (`Bookings.SharedNamesAddUp`).
- An owner may lower the positions of an open opening to exactly the number accepted; only fewer are refused
  (backend/app/modules/opportunities/service.py:320). The opening then stays open and advertised although every
  application and acceptance is refused, until another edit, a closing or a deletion. The comment in
  backend/app/modules/applications/service.py:153-160 expects such rows only from writes past the application.
  `OpeningPlaces.RoomyByStep` shows this edit is the only way, `OpeningPlaces.CutToFitHappens` gives the calls.
- Grouped and scoped milestone risk agree for every judgement only as long as no milestone waits on another department's
  (`Departments.JudgedAlikeExactly`); the milestones module enforces more than that.

## Conventions

Identifiers are natural numbers whose order stands for the order of canonical UUID strings. Wall-clock times are integer
microseconds, days are integers, monotonic time and scores are real numbers. Passwords, codes, fingerprints and token
hashes are compared for equality only: hashes are taken as injective and generated tokens as fresh. Labels are read under
any classification of characters into digits and white space that agrees with Unicode where the proofs look. A query result is
either a function of the tables or, where its order is the database's, any sequence the query may return.

## Model

| member | source | states |
|---|---|---|
| `Bookings.RunsAreSound` | backend/app/modules/bookings/service.py:150-322 | over every run of bookings, decisions, equipment changes and clock ticks, approved periods of one item are pairwise disjoint, nobody ever decides a booking of their own, and a completed booking lies in the past |
| `Bookings.ReachableIsSound` | backend/app/modules/bookings/service.py:252-322 | every state reachable from an empty database has those properties |
| `Bookings.ConstraintIsExact` | backend/app/modules/bookings/models.py:35-44 | the EXCLUDE constraint refuses exactly the approved row whose insertion would break disjointness, neither more nor less |
| `Bookings.AcceptedExactly` | backend/app/modules/bookings/service.py:132-175 | a booking is accepted if and only if the item is available to this person, the period is non-empty, inside the lead time and length limits, and (unless approval is needed) leaves the table free of overlaps |
| `Bookings.BookedTimeFits` | backend/app/modules/bookings/models.py:35-44 | disjoint approved periods of one item, clipped to any window, never add up to more than the window |
| `Bookings.BookedTimeNeverExceedsTheWindow` | backend/app/modules/bookings/models.py:35-44 | in every reachable database the booked time of one item inside any window is at most the length of the window |
| `Bookings.UtilisationIsBounded` | backend/app/modules/analytics/insights.py:236-255 | the approved time summed for the items that share a name is at most the window their bookings lie in, times the number of those items |
| `Bookings.SharedNamesAddUp` | backend/app/modules/analytics/insights.py:236-255 | for any set of items that share a name and any window, the time shown stays within the window in every reachable database if and only if the set holds at most one item |
| `Bookings.EveryItemFull` | backend/app/modules/analytics/insights.py:236-255 | that bound is reached, for every set of items and every window: a database in which every one of them is booked for all of it, two weeks at a time at most |
| `Bookings.ReachableIsShort` | backend/app/modules/facilities/schemas.py:76-96 | no booking is ever stored that is empty or longer than the two weeks any item may allow, however often the limits of items are edited |
| `Bookings.TimelyRunsNeverDoubleBook` | backend/app/modules/bookings/service.py:252-274 | as long as every approval of an item comes no later than its start, approved and completed periods of the item together stay disjoint over the whole run |
| `Bookings.SelfServiceNeverDoubleBooks` | backend/app/modules/bookings/service.py:132-162 | an item that never requires approval is never held twice over the same moment, over every run from an empty database |
| `Bookings.ApprovalIsSafeExactlyUntilTheStart` | backend/app/modules/bookings/service.py:261-271 | the guard the approval step lacks, exactly: approving a request for [start, end) at a given time is safe in all reachable databases if and only if that time is not after the start, or the period is empty or longer than two weeks and so cannot be booked |
| `Bookings.LateApprovalWitness` | backend/app/modules/bookings/service.py:261-271 | for every period an item can be booked for and every moment after its start, a database reachable with hour limits the equipment form accepts, in which approving it double-books the item |
| `Bookings.RunsFollow` | backend/app/modules/bookings/policies.py:15-25 | over every run in which no person or item is deleted (bookings go with those), no booking disappears or changes hands, a rejected, cancelled or completed one never changes again, and a slot that had begun while approved is never handed back |
| `Bookings.AvailabilityIsTheConstraint` | backend/app/modules/bookings/service.py:349-373 | inside the window shown, a period touches a busy slot exactly when the constraint would refuse it |
| `Bookings.AvailabilityIsATimeline` | backend/app/modules/bookings/service.py:349-373 | busy slots come in order and each ends before the next begins |
| `Bookings.BookingService.CreateBooking` | backend/app/modules/bookings/service.py:150-175 | the row written and every refusal, in the order of the checks; a refusal changes nothing |
| `Bookings.BookingService.Decision` | backend/app/modules/bookings/service.py:252-322 | the decision written in place, judged by the constraint after the write and rolled back on conflict, equals the specified step |
| `Bookings.WrittenRowIsJudgedAlike` | backend/app/modules/bookings/service.py:276-291 | flushing the status first and letting the constraint judge the written row gives the same answer as asking before the write |
| `Bookings.BookingService.Approve` | backend/app/modules/bookings/service.py:325-328 | succeeds only on somebody else's pending booking |
| `Bookings.BookingService.Reject` | backend/app/modules/bookings/service.py:331-334 | succeeds only on somebody else's pending booking |
| `Bookings.BookingService.Cancel` | backend/app/modules/bookings/service.py:337-340 | succeeds only before the period starts |
| `Bookings.BookingService.Complete` | backend/app/modules/bookings/service.py:343-346 | succeeds only once the period is over |
| `Bookings.BookingService.Availability` | backend/app/modules/bookings/service.py:349-391 | the loop reports each row of the query once, in order, and flags exactly the viewer's own |
| `BookingAnswers.DecidedExactly` | backend/app/modules/bookings/service.py:178-322 | who may decide what and when, exactly: approving and rejecting a pending booking of somebody else is for administrators, the custodian of the item and the coordinator of its department, approving only while the table stays free of overlaps; cancelling is before the start, for the owner or for such a person once approved; completing is after the end, for either; and to everybody else the booking does not exist |
| `BookingAnswers.DecisionsAreSigned` | backend/app/modules/bookings/service.py:296-322 | a decision changes one row: its status, and for anyone but the owner who decided, when, and the note |
| `BookingAnswers.RefusedForAReason` | backend/app/modules/bookings/service.py:252-322 | what a refused decision names is so |
| `BookingAnswers.BookingsAreWritten` | backend/app/modules/bookings/service.py:150-175 | an accepted booking is one new row, the person's for this item and period, waiting or approved at this moment as the item requires |
| `BookingAnswers.RefusedByARule` | backend/app/modules/bookings/service.py:132-175 | what a refused booking names is so: the item is missing or that rule is broken |
| `BookingAnswers.EditsWithinTheForm` | backend/app/modules/facilities/schemas.py:76-96 | an edit of an item takes effect exactly within one to 336 hours at a time and up to 720 hours of notice |
| `BookingAnswers.TwoWeeksAtMost` | backend/app/modules/facilities/schemas.py:84-95 | in every reachable database each booking is at most fourteen days of 24 hours, in microseconds |
| `Evaluation.IdealOrderIsBest` | backend/scripts/evaluate_recommendations.py:103-110 | the rearrangement inequality behind nDCG: no list of at most k grades drawn from the judgements is worth more than the first k in descending order, and under a strict discount only those grades in those places are worth as much |
| `Evaluation.GradesAreDrawn` | backend/scripts/evaluate_recommendations.py:132-174 | the grades of distinct ranked items, unjudged ones counted as 0, never use a positive judgement more often than it was given |
| `Evaluation.NdcgIsAProportion` | backend/scripts/evaluate_recommendations.py:103-110 | nDCG lies in [0, 1] for every ranking of distinct items, every judgements, every cut-off and every positive non-increasing discount |
| `Evaluation.NdcgIsOneExactlyForTheIdealOrder` | backend/scripts/evaluate_recommendations.py:103-110 | nDCG is 1 if and only if something relevant is judged within the cut-off and the shown grades are the ideal ones in the ideal order |
| `Evaluation.PrecisionIsTheShare` | backend/scripts/evaluate_recommendations.py:96-100 | precision at k is the number of relevant grades among the places shown over the number of places shown, 0 when none is, and always a proportion |
| `Evaluation.DcgByItsLaws` | backend/scripts/evaluate_recommendations.py:103-110 | DCG by laws that leave no choice: an empty list and a grade of 0 are worth nothing, one grade more is worth twice as much and the discount again, and each entry adds its own worth at the discount of its place |
| `Evaluation.NdcgIsTheQuotient` | backend/scripts/evaluate_recommendations.py:103-110 | nDCG at k times the DCG of the k best judgements is the DCG of the first k shown, and it is 0 when nothing relevant is judged there |
| `Scoring.RelatedAreas` | backend/app/ml/scoring.py:52-63 | the loop collects exactly the areas one step up or down the taxonomy from an area of the viewer, and none the viewer has |
| `Scoring.SkillScoreIsAShare` | backend/app/ml/scoring.py:24-36 | a skill score lies in [0, 1] for non-negative requirement weights |
| `Scoring.AreaScoreIsAShare` | backend/app/ml/scoring.py:39-49 | Jaccard with half credit for related areas stays in [0, 1] |
| `Scoring.SkillScoreIsFullExactly` | backend/app/ml/scoring.py:17-36 | the full skill score is reached if and only if every required skill is held at the top proficiency |
| `Scoring.AreaScoreExtremes` | backend/app/ml/scoring.py:39-63 | the full area score means the same areas, and none means no area in common or one step away |
| `Scoring.WithSemanticStaysAnAverage` | backend/app/ml/features.py:46-69 | re-weighting for semantic similarity keeps the weights non-negative with sum one if and only if the share is at most one |
| `Scoring.ScoreIsAShare` | backend/app/ml/scoring.py:66-97 | every unrounded score lies in [0, 1] when the weights are an average, the text similarity is a proportion and the semantic one is at most one (a negative one counts as none) |
| `Scoring.MatchedGrows` | backend/app/ml/scoring.py:17-36 | learning a skill or getting better at one never lowers what is matched |
| `Scoring.WeightsGoToTheirComponents` | backend/app/ml/scoring.py:66-97 | alone, each weight leaves its own component: skills, areas, text similarity, and semantic similarity when it is not negative |
| `Scoring.ScoresAddUp` | backend/app/ml/scoring.py:80-86 | the score is additive and homogeneous in the weights |
| `Scoring.SemanticTakesItsShare` | backend/app/ml/features.py:46-69 | handing a share to semantic similarity blends that share of it with the rest of the score without it |
| `Scoring.SkillScoreIsTheWeightedMean` | backend/app/ml/scoring.py:17-36 | the skill score is the mean, weighted as the item asks, of what each skill earns: nothing if missing, half at level 1, an eighth more per level, all at level 5 |
| `Scoring.AreaScoreIsJaccard` | backend/app/ml/scoring.py:39-63 | the area score times the number of all areas is the number in common plus half for each area of the item that is a parent or child of one of the viewer's |
| `Scoring.NoWeightNoSkillScore` | backend/app/ml/scoring.py:24-36 | an item that asks for no skill, or attaches no weight to any, matches nobody by skill |
| `Recommender.Recommend` | backend/app/ml/recommender.py:37-80 | the loop that scores, filters, sorts and cuts returns the specified recommendation |
| `Recommender.OrderOfItemsIsIrrelevant` | backend/app/ml/recommender.py:37-80 | any permutation of distinct items gives the same recommendation, whatever the rounding |
| `Recommender.FewerIsAPrefix` | backend/app/ml/recommender.py:76-80 | the answer for a smaller k is a prefix of the answer for a larger one |
| `Recommender.RecommendationIsTheTop` | backend/app/ml/recommender.py:37-80 | the answer holds min(k, matches) distinct matching items in order, and each beats every matching item left out |
| `Recommender.CandidatesAreScored` | backend/app/ml/recommender.py:37-75 | an item enters under its own number with its own similarities and rounded score, exactly when its score is above the cut |
| `Recommender.SimilaritiesAreTheItemsOwn` | backend/app/ml/recommender.py:52-66 | the text weight alone ranks by the item's own text similarity, the semantic weight alone by its own semantic similarity |
| `Recommender.EveryCandidateIsRecommended` | backend/app/ml/recommender.py:37-80 | asked for as many as there are items, the answer holds exactly the items that score |
| `Recommender.EvaluationIsAProportion` | backend/scripts/evaluate_recommendations.py:132-174 | ranking with the recommender and scoring with nDCG always gives a proportion |
| `RateLimit.RateLimiter.Allow` | backend/app/core/rate_limit.py:43-60 | pruning and appending in place equals the specified step on the log |
| `RateLimit.PruningNeverChangesAnAnswer` | backend/app/core/rate_limit.py:50-60 | with a clock that does not go back, deciding on the pruned log equals deciding on the full history of admitted calls |
| `RateLimit.LetThroughIsAdmitted` | backend/app/core/rate_limit.py:50-60 | when callers reach the lock in the order of their clock readings, the calls the pruning limiter lets through are those a limiter that remembers everything admits |
| `RateLimit.NeverMoreThanTheLimit` | backend/app/core/rate_limit.py:50-60 | when callers reach the lock in the order of their clock readings, at most max_requests calls of a key are let through in any stretch of time shorter than the window, wherever it lies |
| `RateLimit.LimitHoldsExactlyInOrder` | backend/app/core/rate_limit.py:51-53 | for every limiter: a further call, after any calls in order until a moment, keeps it within its limit if and only if its clock was not read before that moment, or the limiter allows at most one request or has no window |
| `RateLimit.OutOfOrderBreaksTheLimit` | backend/app/core/rate_limit.py:51-53 | for every limiter of two requests or more with a positive window, and every reading earlier than the last one by however little, calls in order after which it lets one call too many through |
| `RateLimit.SomeLimitersNeedNoOrder` | backend/app/core/rate_limit.py:50-60 | a limiter of at most one request, or without a window, keeps its limit whatever the order of the readings at the lock |
| `RateLimit.RefusedExactlyWhenFull` | backend/app/core/rate_limit.py:50-60 | a call is refused if and only if exactly max_requests calls of the key were admitted in the window ending now |
| `RateLimit.MemoryIsBounded` | backend/app/core/rate_limit.py:50-60 | the log of a key never holds more than max_requests entries |
| `RateLimit.KeysAreIndependent` | backend/app/core/rate_limit.py:50-60 | what is remembered of a key is what would be remembered if only its own calls had been made |
| `ThreadMerge.Migration.Run` | backend/alembic/versions/0021_collaboration_belongs_to_a_pair.py:95-226 | the statements applied one after another to the tables give the specified database, and an abort leaves every table as it was |
| `ThreadMerge.MessagesStayWithTheirPair` | backend/alembic/versions/0021_collaboration_belongs_to_a_pair.py:153-177 | no message is lost or altered, and each is in a surviving thread of the very pair or project it was written to |
| `ThreadMerge.OneThreadPerPair` | backend/alembic/versions/0021_collaboration_belongs_to_a_pair.py:153-166 | at most one thread per pair survives, and it is the oldest the pair had |
| `ThreadMerge.SurvivorIff` | backend/alembic/versions/0021_collaboration_belongs_to_a_pair.py:207-215 | the surviving threads are exactly the ones that were not merged into another |
| `ThreadMerge.ThreadsAreDatedByTheirNewestMessage` | backend/alembic/versions/0021_collaboration_belongs_to_a_pair.py:196-206 | a surviving thread with messages is dated by the newest of them |
| `ThreadMerge.RelationshipIsTheStrongest` | backend/alembic/versions/0021_collaboration_belongs_to_a_pair.py:94-111 | a pair has a relationship exactly when a request passed between the two in either direction, and its state is the strongest any of them implies |
| `ThreadMerge.EveryRowIsStoodFor` | backend/alembic/versions/0021_collaboration_belongs_to_a_pair.py:178-195 | every participant still takes part in the thread their old one went into |
| `ThreadMerge.ReadMarkIsTheMostCautious` | backend/alembic/versions/0021_collaboration_belongs_to_a_pair.py:178-195 | the read mark of a merged thread is one of the marks it replaces, never-opened if any of them was, and otherwise no later than any of them |
| `ThreadMerge.NothingIsMarkedRead` | backend/app/modules/messages/service.py:237-260 | a message unread for a participant of its old thread is unread for them after the merge |
| `ThreadMerge.RowsStayAsTheyWere` | backend/alembic/versions/0021_collaboration_belongs_to_a_pair.py:178-195 | a participant who had a row in the kept thread keeps it but for the read mark, and one who had none gets a row of theirs from a merged thread but for the thread |
| `ThreadMerge.OneRowEach` | backend/alembic/versions/0021_collaboration_belongs_to_a_pair.py:178-215 | after the merge nobody has two rows in one thread |
| `ThreadMerge.ThreadsStayAsTheyWere` | backend/alembic/versions/0021_collaboration_belongs_to_a_pair.py:133-215 | a surviving thread is an old one linked to its pair; only the date of its last message may be new, and without messages it is not |
| `ThreadMerge.ThreadsFollowTheirRequest` | backend/alembic/versions/0021_collaboration_belongs_to_a_pair.py:140-150 | the pair of a thread is the two people of its own request, smaller number first, and a thread without a request has none |
| `ThreadMerge.SelfRequestsAbort` | backend/alembic/versions/0021_collaboration_belongs_to_a_pair.py:84-111 | the relationship of somebody with themselves is what stops the migration first |
| `ThreadMerge.AbortsExactlyWhenClaimedTwice` | backend/alembic/versions/0021_collaboration_belongs_to_a_pair.py:182-193 | the upsert is refused if and only if somebody has a row in two duplicates of one thread |
| `ThreadMerge.TwoThreadsPerPairIsTheLimit` | backend/alembic/versions/0021_collaboration_belongs_to_a_pair.py:178-195 | where both people take part in their threads, the migration completes if and only if no pair has three threads |
| `ThreadMerge.ThreeThreadsAbort` | backend/alembic/versions/0021_collaboration_belongs_to_a_pair.py:178-195 | a database within the old constraints, two people with three accepted requests and their threads, on which the migration is refused |
| `AccountSafety.RunsKeepSound` | backend/app/modules/auth/service.py:81-184 | over any interleaving of all session and administration calls: an active administrator remains, inactive accounts hold no live token, every token family is one person's chain, and each person has at most one live promotion challenge |
| `AccountRuns.KeepsChained` | backend/app/modules/auth/service.py:96-124 | every call keeps a family one chain linked by replacement, all rows but possibly the last revoked |
| `AccountSafety.OneLivePerFamily` | backend/app/modules/auth/service.py:96-124 | a token family never has two unrevoked tokens |
| `AccountSafety.RevokedPresentedIsFatal` | backend/app/modules/auth/service.py:103-108 | presenting a revoked token, however it was revoked, is refused and leaves its family without an unrevoked token in every later run |
| `AccountSafety.ReplayIsFatal` | backend/app/modules/auth/service.py:103-124 | in particular a rotated token, presented again after any run, is refused and ends its family for good |
| `AccountSafety.DeadOverRuns` | backend/app/modules/auth/service.py:164-176 | a family with no unrevoked token never gains one again |
| `AccountSafety.SignedOutUntilLogin` | backend/app/modules/auth/service.py:136-154 | after a password change, a temporary-password reset, a deactivation or a deletion the account holds no live token, and no run without a login of its own gives it one |
| `AccountSafety.NoSessionWithoutLogin` | backend/app/modules/auth/service.py:88-93 | an account without a live token keeps having none over every run in which it does not log in |
| `AccountRuns.KeepsInactiveSignedOut` | backend/app/modules/admin/service.py:283-307 | no call, reactivation included, leaves an inactive account with a live token |
| `AccountRuns.KeepsGoverned` | backend/app/modules/admin/policies.py:40-63 | no call takes the last active administrator away, although deletion has no such check |
| `AccountRuns.LeavingNeedsAnother` | backend/app/modules/admin/policies.py:40-63 | whoever stops being an active administrator leaves another one behind |
| `Administration.ListedExactlyWhenDeletable` | backend/app/modules/admin/deletion.py:150-185 | a row is offered for deletion exactly when deletion would be permitted, except that an unverified faculty member is offered rows they may not delete |
| `Administration.RoleStepsAndScope` | backend/app/modules/admin/promotions.py:175-219 | a role change always leaves scope and placement following the role; a confirmed promotion leaves the scope right exactly when the target was no coordinator, and a step down exactly when the new role is not coordinator |
| `AccountSafety.AdministratorsAreMade` | backend/app/modules/admin/promotions.py:147-191 | an account becomes an administrator only by another active administrator's confirmation or outright role change, and none is created as one |
| `AccountSafety.OneRequestFewGuesses` | backend/app/modules/admin/promotions.py:162-172 | over any run without a new request for the target, at most MAX_ATTEMPTS wrong codes are answered |
| `AccountAuthority.LateOrExhaustedNeverPromotes` | backend/app/modules/admin/promotions.py:162-172 | once the code has expired or its guesses are spent, no run without a new request or an outright role change makes the target an administrator |
| `AccountAuthority.RequestOpensOne` | backend/app/modules/admin/promotions.py:89-115 | after a request the target has exactly one live challenge, with this code, the full lifetime and every guess left |
| `AccountTraces.AdministratorsHaveAnOrigin` | backend/app/modules/admin/promotions.py:89-191 | in every run, whoever has become an administrator was made one by another active administrator: outright, or by confirming in time with the code of a challenge that an active administrator opened for them earlier in the run (or that was open at its start) |
| `AccountAuthority.PromotionAndStepDownLeaveScopeBehind` | backend/app/modules/admin/promotions.py:175-219 | a run from a state with every scope in place after which a promoted coordinator keeps scope and department and a stepped-down coordinator oversees nothing |
| `AccountAuthority.LapsedSessionsAreOver` | backend/app/modules/auth/service.py:96-118 | a session not renewed within the lifetime of its last token can never be renewed again, over every run |
| `AccountTraces.RowsAreRenewals` | backend/app/modules/auth/service.py:88-124 | over every run in which the owner remains, a token family grows by exactly one row per successful renewal and by nothing else |
| `AccountTraces.UndisturbedSessionsRenew` | backend/app/modules/auth/service.py:96-124 | a session that no call aims at renews at any time within its lifetime, whatever else happens, and goes on with one new token of a full lifetime |
| `AccountAuthority.WalledUntilChanged` | backend/app/core/deps.py:63-77 | an account behind a temporary password exercises no permission over every run in which its owner does not replace it |
| `AccountAuthority.CreatedBelow` | backend/app/modules/admin/accounts.py:108-211 | a created account is fresh, walled, unverified, ranks strictly below its creator and, unless an administrator made it, is in the creator's own department |
| `AccountAuthority.AuthorityStaysHome` | backend/app/modules/admin/deletion.py:134-207 | below the administrators, a call changes or removes another account only if that account ranks strictly lower and is in the actor's one department, and never for an unverified faculty member |
| `AccountRuns.KeepsOneChallengeEach` | backend/app/modules/admin/promotions.py:98-106 | a new request retires every earlier challenge, so a person has at most one live challenge |
| `AccountAnswers.LoginAnswers` | backend/app/modules/auth/service.py:65-93 | a login succeeds if and only if the account is known and active, the password is the stored one and the entrance fits the role; it adds exactly one live token of full lifetime in a family nobody had |
| `AccountAnswers.OnlyTheLastPasswordOpens` | backend/app/modules/auth/service.py:81-145 | over every run, after a successful password change or reset and until another one succeeds, a login succeeds only with the password that call set |
| `AccountAnswers.RotateAnswers` | backend/app/modules/auth/service.py:96-124 | exactly when a renewal succeeds, what it hands over, and what every refusal leaves |
| `AccountAnswers.LogoutAnswers` | backend/app/modules/auth/service.py:127-133 | signing out ends the session presented and changes no other row |
| `AccountAnswers.ChangePasswordAnswers` | backend/app/modules/auth/service.py:136-154 | exactly when a password change succeeds, and that it sets this password, lifts the gate, ends every session of the person, and changes nothing else |
| `AccountAnswers.ResetPasswordAnswers` | backend/app/modules/admin/service.py:225-253 | an administrator, and only one, resets anybody else: this password, the gate, every session ended, nothing else changed |
| `AccountAnswers.ChangeRoleAnswers` | backend/app/modules/admin/service.py:256-280 | exactly when a role change succeeds and what it leaves of department and scope; the last-administrator guard never refuses it, since the actor is another administrator |
| `AccountAnswers.SetActiveAnswers` | backend/app/modules/admin/service.py:283-307 | exactly who switches whom on and off: administrators anybody, themselves while another is left, others those they answer for; the row ends up as asked, and switching off ends the sessions |
| `AccountAnswers.DeleteAnswers` | backend/app/modules/admin/deletion.py:150-238 | exactly who deletes whom, and that exactly the person, their sessions and the challenges naming them go |
| `AccountAnswers.UpdateUserAnswers` | backend/app/modules/admin/service.py:159-222 | exactly when an edit succeeds, and the department and scope it leaves in every combination of what was sent |
| `AccountAnswers.CreateAccountAnswers` | backend/app/modules/admin/accounts.py:81-211 | an account is created if and only if the creator may give such a role and place it there; the new row follows from both and no other changes |
| `AccountAnswers.RequestPromotionAnswers` | backend/app/modules/admin/promotions.py:89-144 | exactly when a promotion is opened, the challenge it writes with ten minutes to run, and that only the target's earlier ones are retired |
| `AccountAnswers.ConfirmPromotionAnswers` | backend/app/modules/admin/promotions.py:147-191 | a confirmation succeeds if and only if the challenge is in time, has fewer than five wrong guesses and the code is right; a wrong code costs one guess; nothing else changes anything |
| `AccountAnswers.StepDownAnswers` | backend/app/modules/admin/promotions.py:194-232 | an administrator steps down if and only if another active one is left and the role named is another, and only the role changes |
| `AccountAnswers.PermissionsByRole` | backend/app/core/permissions.py:95-190 | which roles exercise which permission on accounts, and which of the two refusals is given |
| `AccountAnswers.NotTheirs` | backend/app/modules/admin/deletion.py:134-207 | each reason given for not deleting or switching an account is so |
| `AccountService.Database.Login` | backend/app/modules/auth/service.py:65-93 | the call refuses in the source's order and otherwise starts a family of its own |
| `AccountService.Database.Rotate` | backend/app/modules/auth/service.py:96-124 | the new row, the revoked row and the replay branch equal the specified step |
| `AccountService.Database.Logout` | backend/app/modules/auth/service.py:127-133 | only the presented token is revoked; an unknown or revoked one changes nothing |
| `AccountService.Database.ChangePassword` | backend/app/modules/auth/service.py:136-145 | password, gate and every session change together, or nothing does |
| `AccountService.Database.ResetPassword` | backend/app/modules/admin/service.py:225-253 | the temporary password, the gate and the revocation of every session, or one refusal and no change |
| `AccountService.Database.ChangeRole` | backend/app/modules/admin/service.py:256-280 | role, scope and placement as one step, guarded against oneself and the last administrator |
| `AccountService.Database.SetActive` | backend/app/modules/admin/service.py:283-307 | activation state and revocation as one step, under the deletion hierarchy and the last-administrator guard |
| `AccountService.Database.UpdateUser` | backend/app/modules/admin/service.py:159-222 | department, scope and placement of the patched user, and nothing kept of a refused patch |
| `AccountService.Database.Delete` | backend/app/modules/admin/deletion.py:210-238 | the user, their tokens and the challenges naming them go together |
| `AccountService.Database.CreateAccount` | backend/app/modules/admin/accounts.py:81-211 | role and department follow from the creator; the account starts behind the password gate |
| `AccountService.Database.RequestPromotion` | backend/app/modules/admin/promotions.py:89-144 | earlier challenges are retired and one fresh challenge is opened |
| `AccountService.Database.RetireStale` | backend/app/modules/admin/promotions.py:98-106 | the loop consumes exactly the target's live challenges |
| `AccountService.Database.ConfirmPromotion` | backend/app/modules/admin/promotions.py:147-191 | a wrong code is counted although refused; the right one consumes the challenge and sets the role |
| `AccountService.Database.StepDown` | backend/app/modules/admin/promotions.py:194-232 | the role is given up only while another active administrator is left |
| `Network.Graph.Build` | backend/app/modules/analytics/network.py:101-171 | every pair weighs the publications naming both plus the teams holding both plus the accepted requests between them, with exactly the matching kinds; no self-edges; total weight is the pairs over all groups plus the true links |
| `Network.Graph.Add` | backend/app/modules/analytics/network.py:83-94 | one call raises one unordered pair by one and adds its kind, and a self-pair changes nothing |
| `Network.Graph.AddGroups` | backend/app/modules/analytics/network.py:97-128 | each group raises each of its pairs by one |
| `Network.GroupRows` | backend/app/modules/analytics/network.py:108-131 | grouping rows gives one group per identifier holding exactly the users of its rows |
| `Network.CombinationsLinks` | backend/app/modules/analytics/network.py:97-98 | each pair of members is produced exactly once |
| `Network.SharedIsCounted` | backend/app/modules/analytics/network.py:108-131 | the groups shared by two people are the identifiers under which both have a row |
| `Network.Handshake` | backend/app/modules/analytics/network.py:150-171 | the degrees sum to twice the number of edges |
| `Network.ConnectedIffDegree` | backend/app/modules/analytics/network.py:150-171 | a person is connected exactly when their degree is positive |
| `Network.GraphIsAmongThePeople` | backend/app/modules/analytics/network.py:101-171 | only visible people are joined, and the degrees shown for them sum to twice the number of edges |
| `Network.WeightsOverTheTables` | backend/app/modules/analytics/network.py:101-148 | over the tables: an edge joins two visible people and weighs the publications naming both, the teams both are on as members or as owners of projects not deleted, and the accepted requests between them, with exactly the matching kinds |
| `AcademicYear.FromOrdinalInverts` | backend/app/modules/analytics/academic_year.py:51-60 | day numbers and calendar dates are the same thing written twice |
| `AcademicYear.OrdinalsFollowDates` | backend/app/modules/analytics/academic_year.py:40-41 | comparing day numbers is comparing dates |
| `AcademicYear.MonthsHaveTheirDays` | backend/app/modules/analytics/academic_year.py:51-60 | from the first of each month to the first of the next are as many days as the Gregorian calendar gives the month |
| `AcademicYear.YearsTile` | backend/app/modules/analytics/academic_year.py:51-60 | consecutive academic years have no day between them and none in both |
| `AcademicYear.YearHasItsDays` | backend/app/modules/analytics/academic_year.py:51-60 | a year has 366 days exactly when it covers a 29th of February, else 365 |
| `AcademicYear.ContainsExactly` | backend/app/modules/analytics/academic_year.py:40-41 | a year contains a date if and only if it is the year the start-month rule names for it |
| `AcademicYear.CurrentIsTheOnlyYear` | backend/app/modules/analytics/academic_year.py:84-88 | for every start month and date, `current` is the one and only academic year containing it, and fails exactly at the two ends of the calendar |
| `AcademicYear.RecentYearsTileBackwards` | backend/app/modules/analytics/academic_year.py:91-98 | the years offered run backwards from the current one without gaps, and the list fails exactly when it reaches beyond the calendar |
| `AcademicYear.ParseAcceptsExactly` | backend/app/modules/analytics/academic_year.py:63-81 | under every classification of digits and spaces that Unicode allows, exactly which labels are accepted, and that an accepted one gives the year of its first four digits |
| `AcademicYear.ReadsWhatIsSpelled` | backend/app/modules/analytics/academic_year.py:63-81 | a text is read as two numbers if and only if it spells them: four digits, a hyphen, dash or slash, two or four digits, with white space allowed around each |
| `AcademicYear.LabelsNameBothYears` | backend/app/modules/analytics/academic_year.py:51-60 | a label is the year, a hyphen and the last two digits of the next year |
| `AcademicYear.LabelsReadBackExactly` | backend/app/modules/analytics/academic_year.py:51-81 | a printed label reads back as its own year if and only if the year has four digits and does not end in 99 |
| `Departments.ByDepartment` | backend/app/modules/analytics/insights.py:643-703 | the one pass reports for every department the numbers its scoped helpers report, for every way of judging risk, when dependencies stay inside a project |
| `Departments.JudgedAlikeExactly` | backend/app/modules/analytics/insights.py:774-827 | grouped and scoped milestone risk agree for every judgement if and only if no outstanding milestone waits on a live milestone of another department |
| `Departments.WithinProjectsNeverCrosses` | backend/app/modules/milestones/service.py:466-490 | dependencies inside one project never cross departments |
| `Departments.MilestoneRiskPerDepartment` | backend/app/modules/analytics/insights.py:774-827 | the loop counts each department's overdue and at-risk milestones, each milestone once |
| `Departments.MilestoneAdherence` | backend/app/modules/analytics/insights.py:348-417 | the loop's counters are the counts over the department's own rows |
| `Departments.PeoplePerDepartment` | backend/app/modules/analytics/insights.py:706-720 | folding the grouped rows gives each department its active researchers and students |
| `Departments.PublicationsAgree` | backend/app/modules/analytics/insights.py:739-753 | a paper counts once in each department it has an author in, joined or scoped |
| `Departments.PendingAgrees` | backend/app/modules/analytics/insights.py:756-771 | counting pending profiles by join or by scope is the same |
| `Departments.ProjectsAgree` | backend/app/modules/analytics/insights.py:723-736 | grouped active projects equal the scoped count, also for departments with none |
| `Departments.RowsSayWhatIs` | backend/app/modules/analytics/insights.py:643-827 | each figure of a row over the tables: active faculty and coordinators, active students, active projects not deleted, publications with an author in the department, waiting profiles of active people, and outstanding milestones of live projects by judged risk |
| `Departments.UpstreamIsOfTheDepartment` | backend/app/modules/analytics/insights.py:348-417 | a milestone is judged by exactly those milestones of its department, in live projects, that it waits on |
| `Departments.RiskIsCounted` | backend/app/modules/analytics/insights.py:348-417 | counting by risk counts the milestones of live projects of the department that are neither done nor dropped and are judged so |
| `Departments.CompletionIsCounted` | backend/app/modules/analytics/insights.py:348-417 | completed and in-time counts are the milestones done or dropped on a known day, and of those the ones not after their date |
| `BoardRuns.SaidIsSaid` | backend/app/modules/announcements/service.py:304-381 | over every run, a published notice keeps its words, reach, links and files, its status only moves forward, and once deleted it never returns |
| `BoardRuns.RunsKeepSound` | backend/app/modules/announcements/models.py:63-75 | over every run published notices are dated, departmental notices name their department, drafts come from nobody's opening, and an opening has at most one notice |
| `BoardRuns.HeardExactly` | backend/app/modules/announcements/policies.py:39-101 | over every run a written notice is seen by exactly those its author's role reaches: everybody for institution-wide roles, otherwise the department, the institution-wide roles and the author |
| `BoardRuns.KeepsOnePerOpening` | backend/app/modules/announcements/handlers.py:70-114 | no call puts an opening on the board twice |
| `BoardReading.UnreadAgrees` | backend/app/modules/announcements/service.py:176-231 | the unread badge, the size of the unread-only list and the number of rows flagged unread met by paging through the whole list are one number, for every page size |
| `BoardReading.PagesCoverTheList` | backend/app/modules/announcements/service.py:215-231 | the pages hold exactly the rows of the list, each once |
| `BoardReading.MarkReadTakesOneOff` | backend/app/modules/announcements/service.py:384-419 | opening a notice lowers the opener's count by one exactly if it was unread, changes nobody else's, and is idempotent |
| `BoardReading.NewestFirst` | backend/app/modules/announcements/service.py:205-231 | the list runs from the latest date to the earliest, larger number first among equals |
| `BoardReading.FiltersNarrowTheList` | backend/app/modules/announcements/service.py:176-214 | a viewer's own notices are all listed, a search leaves what matches, and the unread filter leaves exactly the rows flagged unread |
| `Board.WrittenLinksReadBack` | backend/app/modules/announcements/service.py:289-301 | rewriting the links of a notice reads back in the author's order and touches no other notice |
| `Board.HiddenIsAbsent` | backend/app/modules/announcements/service.py:164-173 | whatever a person asks about a notice they may not see, they get the answer a missing notice gives, and nothing changes |
| `Board.EditsAreRefusedByStatus` | backend/app/modules/announcements/service.py:269-286 | a draft is visible to its author alone, so an edit is never refused as somebody else's, and is refused for its status exactly when the notice is visible and no draft |
| `BoardAnswers.RaisedNoticesAreHeard` | backend/app/modules/announcements/policies.py:39-101 | over every run a notice raised from an opening is seen by exactly the opening's department, or everybody if it has none, the institution-wide roles and the poster |
| `BoardAnswers.UnpublishedNoticesAreHeard` | backend/app/modules/announcements/policies.py:39-101 | a notice not published is seen by its author alone, and once withdrawn also by administrators |
| `BoardAnswers.CreateAnswers` | backend/app/modules/announcements/service.py:304-326 | exactly who may write, and for whom; what is written is an undated draft with its links in order, and no other notice changes |
| `BoardAnswers.UpdateAnswers` | backend/app/modules/announcements/service.py:329-342 | exactly an author's own draft is edited; named fields and links change and nothing else |
| `BoardAnswers.PublishAnswers` | backend/app/modules/announcements/service.py:345-359 | exactly an author's own draft is published, dated now, and nothing else changes |
| `BoardAnswers.WithdrawAnswers` | backend/app/modules/announcements/service.py:362-371 | exactly a published notice is withdrawn, by its author or an administrator |
| `BoardAnswers.DeleteAnswers` | backend/app/modules/announcements/service.py:373-382 | exactly an author's draft, or a withdrawn notice by an administrator, is deleted with its links, files and receipts, and no others go |
| `BoardAnswers.MarkReadAnswers` | backend/app/modules/announcements/service.py:384-419 | a receipt is added exactly for a notice the person sees, and nothing else changes |
| `BoardAnswers.FileAnswers` | backend/app/modules/announcements/service.py:422-496 | files join and leave exactly an author's own draft and are read by exactly those who see their notice |
| `BoardAnswers.RaiseAnswers` | backend/app/modules/announcements/handlers.py:70-114 | exactly when an opening gets a notice, and what it says, for whom, in whose name |
| `BoardAnswers.TakeDownAnswers` | backend/app/modules/announcements/handlers.py:117-134 | exactly the published notices of the opening are withdrawn |
| `BoardAnswers.AccountsLeaveTheirNotices` | backend/app/modules/announcements/models.py:105-242 | an account that goes takes its receipts along; its notices stay, unsigned |
| `BoardAnswers.RefusedForAReason` | backend/app/modules/announcements/service.py:164-382 | exactly which refusal is given: the sign-in, then a notice that is not seen, then its status, and the person last |
| `BoardService.Database.Create` | backend/app/modules/announcements/service.py:304-326 | a draft with the poster's derived reach and its links, or a refusal |
| `BoardService.Database.WriteLinks` | backend/app/modules/announcements/service.py:289-301 | the loop replaces exactly this notice's link rows |
| `BoardService.Database.Update` | backend/app/modules/announcements/service.py:329-342 | only the named fields of an own draft change |
| `BoardService.Database.Publish` | backend/app/modules/announcements/service.py:345-359 | an own draft is published and dated; status is judged before authorship |
| `BoardService.Database.Withdraw` | backend/app/modules/announcements/service.py:362-371 | a published notice is withdrawn by its author or an administrator |
| `BoardService.Database.Delete` | backend/app/modules/announcements/service.py:374-381 | the notice goes with its links, files and receipts, and no other rows do |
| `BoardService.Database.MarkRead` | backend/app/modules/announcements/service.py:384-396 | one receipt per person and notice |
| `BoardService.Database.Attach` | backend/app/modules/announcements/service.py:422-454 | a file is added to an own draft only |
| `BoardService.Database.Detach` | backend/app/modules/announcements/service.py:457-473 | a file leaves an own draft only, and never through another notice |
| `BoardService.Database.RaiseNotice` | backend/app/modules/announcements/handlers.py:70-114 | a published notice with the opening's own department, unless one is there already |
| `BoardService.Database.WithdrawNotice` | backend/app/modules/announcements/handlers.py:117-134 | the opening's published notice is withdrawn |
| `OpeningSafety.RunsKeepSound` | backend/app/modules/applications/service.py:142-314 | over any run of the calls on openings, applications and the board: acceptances stay within positions, nobody applies twice or to their own opening, every timeline is a path of allowed moves by the right person, and only open openings are advertised |
| `Applications.AtMostFourEntries` | backend/app/modules/applications/policies.py:17-32 | a timeline has at most four entries and only its last can be final |
| `Applications.PathGrows` | backend/app/modules/applications/service.py:131-136 | recording an allowed move extends a timeline to a timeline |
| `OpeningSafety.TimelinesAreShort` | backend/app/modules/applications/service.py:131-136 | every application's timeline starts as submitted, has one to four entries and ends in its current status |
| `OpeningSafety.DecisionsAreFinal` | backend/app/modules/applications/policies.py:32-45 | over every run timelines only grow, and a decided or withdrawn application never changes again |
| `OpeningSafety.ClosedStaysClosed` | backend/app/modules/opportunities/policies.py:20-30 | over every run an opening only moves forward, and a closed or filled one is never reopened or edited |
| `OpeningSafety.ApplicationsCameInTime` | backend/app/modules/applications/service.py:142-192 | every application made during a run was made by an eligible person for somebody else's opening while that was open, in time and not full, and its timeline still begins with that moment |
| `OpeningSafety.EndingsAreTheirs` | backend/app/modules/applications/service.py:223-314 | a final status was set by the person it belongs to, and nobody is accepted without having been under review or shortlisted |
| `OpeningSafety.AcceptanceFills` | backend/app/modules/applications/service.py:236-277 | an acceptance takes one place and never one too many, fills an open opening exactly when it takes the last, and a filled opening is no longer advertised |
| `OpeningRuns.MovingKeepsPositions` | backend/app/modules/opportunities/service.py:106-112 | a decision keeps accepted applications within the positions of every opening |
| `OpeningRuns.KeepsConsistent` | backend/app/modules/applications/service.py:142-314 | every single call, deletion or clock tick keeps positions, timelines and uniqueness |
| `OpeningRuns.KeepsBoardFollows` | backend/app/modules/opportunities/service.py:398-424 | every call keeps the board from advertising an opening that is closed, filled or gone |
| `OpeningRuns.BoardStepsAreTaken` | backend/app/modules/opportunities/service.py:345-424 | what a call on openings does to the board is a short list of board steps |
| `OpeningSafety.NoticesStandThroughout` | backend/app/modules/announcements/handlers.py:155-160 | what the board has said stands, whatever happens to openings and accounts |
| `OpeningPlaces.OpenMeansAPlaceLeft` | backend/app/modules/opportunities/service.py:310-335 | over every run from an empty database in which no edit sets the positions of an opening to exactly the number accepted, that opening has a place left whenever it is open, and nobody is refused because its places are taken |
| `OpeningPlaces.RoomyByStep` | backend/app/modules/opportunities/service.py:310-335 | a single call of any kind leaves an opening that may still take somebody without a place if and only if it is an edit that names the number already accepted |
| `OpeningPlaces.CuttingToFitIsAccepted` | backend/app/modules/opportunities/service.py:310-335 | every signed-in owner of an open opening that has accepted somebody can make that edit, and the opening stays open and on the board as it was |
| `OpeningPlaces.FullRefusesAll` | backend/app/modules/applications/service.py:153-162 | to an opening that is open and full nobody can apply, and nobody who has applied can be accepted |
| `OpeningPlaces.FullStaysOpen` | backend/app/modules/opportunities/service.py:415-424 | over every run without another edit of its places, its closing or a deletion, such an opening stays open and full: it is never marked as filled |
| `OpeningPlaces.CutToFitHappens` | backend/app/modules/opportunities/service.py:310-335 | six calls from an empty database after which an opening is full, open and advertised |
| `OpeningAnswers.SubmitAnswers` | backend/app/modules/applications/service.py:142-192 | exactly who may apply to what and when, and the one application and entry it adds |
| `OpeningAnswers.DecidedExactly` | backend/app/modules/applications/service.py:223-241 | exactly who decides which step and when: the creator, one allowed move, and an acceptance only while there is a place |
| `OpeningAnswers.DecisionsAreWritten` | backend/app/modules/applications/service.py:243-277 | a decision signs and dates the application and adds its entry; exactly an acceptance that asks for it adds the applicant, and nobody else, to the project's team; exactly the last place fills the opening and takes it off the board |
| `OpeningAnswers.RefusedForAReason` | backend/app/modules/applications/service.py:142-241 | what a refused application or decision names is so |
| `OpeningAnswers.WithdrawalAnswers` | backend/app/modules/applications/service.py:303-314 | exactly the applicant withdraws, before any final decision, and one row and one entry change |
| `OpeningAnswers.UpdateAnswers` | backend/app/modules/opportunities/service.py:310-335 | exactly when an edit succeeds, and that each named field takes its value and no other changes |
| `OpeningAnswers.PublishAnswers` | backend/app/modules/opportunities/service.py:345-370 | exactly the owner opens a draft in time whose project is active, and the notice it raises |
| `OpeningAnswers.CloseAnswers` | backend/app/modules/opportunities/service.py:373-395 | exactly who closes what: owner and administrators a draft or an open opening, the coordinator of its department an open one |
| `OpeningAnswers.DraftsAreHidden` | backend/app/modules/opportunities/service.py:90-96 | to everybody but the owner, administrators and the coordinator of its department, every call on a draft answers that there is no such opening |
| `OpeningAnswers.ApplicationsAreHidden` | backend/app/modules/applications/service.py:79-90 | to everybody but the applicant, the creator, administrators and the coordinator of the department, an application does not exist |
| `OpeningAnswers.OpeningsTakeTheirRows` | backend/app/modules/applications/models.py:41-77 | openings that go take exactly their applications, timelines and notices along |
| `OpeningAnswers.AccountsTakeTheirRows` | backend/app/modules/applications/models.py:41-83 | an account that goes takes exactly its openings, applications and team places along; decisions it took for others stay, unsigned |
| `OpeningService.Database.Submit` | backend/app/modules/applications/service.py:142-192 | the application and its first entry, or the first refusal that applies |
| `OpeningService.Database.ChangeStatus` | backend/app/modules/applications/service.py:223-300 | decision, entry, team membership, filling and the board change together or not at all |
| `OpeningService.Database.MarkFilledIfFull` | backend/app/modules/opportunities/service.py:415-424 | the last acceptance fills the opening and takes its notice down |
| `OpeningService.Database.WithdrawApplication` | backend/app/modules/applications/service.py:303-314 | only the applicant withdraws, and only before a decision |
| `OpeningService.Database.UpdateOpportunity` | backend/app/modules/opportunities/service.py:310-335 | positions are a number a request may name and never drop below the accepted, and only drafted or open rows are edited |
| `OpeningService.Database.PublishOpportunity` | backend/app/modules/opportunities/service.py:345-370 | the opening opens and its notice is raised |
| `OpeningService.Database.CloseOpportunity` | backend/app/modules/opportunities/service.py:373-395 | the opening closes and its notice is taken down |
| `Reminders.ToldAtMostOnce` | backend/app/jobs/reminders.py:98-190 | over any schedule of job runs over changing data, each person has at most one notice per key: one overdue notice per milestone, one due notice per milestone and lead time, one deadline reminder per item and lead time |
| `Reminders.SendingTellsEachOnce` | backend/app/modules/notifications/channels.py:44-61 | a run keeps every earlier notice, adds only demanded ones, repeats none, and leaves everybody told who was to be told |
| `Reminders.RerunWritesNothing` | backend/app/jobs/reminders.py:34-46 | a rerun whose queries answer with the same or fewer rows, in any order, writes nothing |
| `Reminders.SameDaySameData` | backend/app/jobs/reminders.py:34-114 | two runs on one day over the same data are one run |
| `Reminders.OverdueGoesToTheTeam` | backend/app/jobs/reminders.py:162-190 | the overdue pass tells exactly the owner and members of live projects with an unsettled milestone whose date has passed |
| `Reminders.DueGoesToTheTeam` | backend/app/jobs/reminders.py:135-159 | the due passes tell exactly the teams of outstanding milestones a listed number of days away |
| `Reminders.DeadlineGoesToWhoSaved` | backend/app/jobs/reminders.py:49-70 | the deadline job tells exactly those who saved an open item a listed number of days from its deadline |
| `Reminders.AWeekAndADayAhead` | backend/app/jobs/reminders.py:24-70 | the jobs tell about what is due a week or a day ahead and about nothing else |
| `ReminderJobs.Outbox.Notify` | backend/app/modules/notifications/channels.py:44-61 | at most one row per person and key, and whether one was written |
| `ReminderJobs.Outbox.NotifyAll` | backend/app/jobs/reminders.py:73-92 | the loop writes what the rows demand and counts what it wrote |
| `ReminderJobs.Outbox.SendDeadlineReminders` | backend/app/jobs/reminders.py:34-46 | the number returned is the number of rows written |
| `ReminderJobs.Outbox.TellTeams` | backend/app/jobs/reminders.py:135-190 | the nested loops write what the milestones demand of their teams and count it |
| `ReminderJobs.Outbox.SendMilestoneReminders` | backend/app/jobs/reminders.py:98-114 | the number returned is the number of rows written over the due and overdue passes |
| `IndexCache.ReceivedIndexIsGrounded` | backend/app/ml/tfidf.py:73-83 | for every interleaving of callers split at the two locks, and of clearing, the index received was built from documents supplied with the same kind and an equal fingerprint |
| `IndexCache.CacheIsInvisible` | backend/app/ml/tfidf.py:73-83 | where equal fingerprints mean equal documents, every caller receives the index of its own documents |
| `IndexCache.AloneACallerIsAnswered` | backend/app/ml/tfidf.py:73-87 | an undisturbed caller gets the matching entry and nothing is built or stored, or else the index of its own documents, which is kept; nobody else is touched |
| `IndexCache.Cache.GetOrBuild` | backend/app/ml/tfidf.py:73-83 | an undisturbed call answers from a matching entry or builds and stores, and the same request then hits |

## Left out

- HTTP routing, error envelopes, cookies, logging, start-up, the frontend, PDF and CSV output: plumbing over libraries.
- Cryptography, token and code generation, the access token: only equality of secrets matters to what is proved.
- PostgreSQL isolation levels and savepoint failures: calls are atomic, except the cache, which is split at its locks. In
  particular a board update that fails inside its savepoint is not modelled.
- Audit rows, event payloads, notification texts of other modules, read models and reasons shown beside scores.
- Full-text search, embeddings and the vectoriser: a search is the set of rows it matches, an index is opaque.
- Floating point: scores and discounts are real numbers, rounding is an arbitrary function, and the logarithmic discount is
  any positive non-increasing one.
- Grades are natural numbers and k is a natural number, as the fixture and the callers have them.
- The evaluation script's reading of its fixture into items and viewers: file input.
- Deletion of booking and equipment rows by cascade: bookings are numbered rows that stay.
- Rounding, scoping and the length limit of the equipment utilisation list.
- Limits on the lengths of texts and lists in requests; the numeric limits that a result depends on (hours of equipment,
  positions of openings) are modelled.
- Creating an opening and the projects and members behind it: openings appear as drafts with 1 to 100 positions, and
  projects and members change freely.
- Names of people, applicants' statements and skills of openings: copied text that no decision reads.
- The department column of an opening is not cleared when its department is deleted; the notices of the department do go.
- Editing schools, departments, profiles and collaboration requests: their rules are single tables.
- The cap on graph nodes shown, cross-department collaboration rates, trends and the other analytics counters.
- The migration's schema statements (columns, indexes, foreign keys) and its downgrade, which cannot undo the merge.
- Reminder keys are constructors where the source joins words, UUIDs and numbers into strings, which cannot collide; the
  message of a reminder is its title.
- The semantic weights of `with_semantic` start without a semantic share, as every caller in the repository has them.
