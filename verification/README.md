# Verified model of the video feed system

This Dafny project models the parts of the short-video backend (and of its upload page) whose
correctness no single function shows, and proves what they promise together.

* **Following feed** (`Ranking`, `FeedDatabase`, `CursorCodec`, `MergeHeap`, `FollowingIndex`,
  `IndexStaleness`, `FollowFeed`, `FeedPages`). The specification is one SQL query over the videos and
  follows tables. The implementation keeps bounded sorted sets in Redis, filled by fan-out and by
  rebuilds, lets a short-lived marker decide whether one may be used, validates what it finds, merges
  the sources with a heap and cuts pages by an opaque text cursor. Proved: a page is the SQL page over
  the database without what the consulted indexes lack, so it is exactly the SQL page when they lack
  nothing; in every run, what a ready index lacks above its oldest member was inserted after the
  snapshot behind its marker, and so was every post a page leaves out; the merge, the codec, the join
  law of the index on the clock, fan-out and its restarts, and pagination through the endpoint and its
  text cursor.
* **Latest feed** (`LatestFeed`, `LatestPages`): hot Redis entries stitched to cold rows are the database's
  page without the posts that are not on the timeline yet, and exactly which. A client that follows the
  cursor ends, and is shown every post once, in order, but for those a page loses to the timeline or
  splits off inside a millisecond; so it is shown all posts exactly when no page does either.
* **Interactions** (`InteractionStore`, `OutboxRelay`, `TimelineConsumer`, `EventWorker`, `HeatCache`,
  `HeatWorker`, `VideoDetail`, `InteractionPipeline`, `PipelineRefinement`, `CacheCoherence`,
  `PipelineTheorems`). Classes change the tables, the outbox and the Redis keys statement by statement,
  with failures at every statement, and are tied to specification functions. A step system puts them
  together: concurrent pollers, an at-least-once broker, crashes, redelivery, reordering, slow readers
  that fill caches late, and a clock; every call of the poller and the workers, and every load of a row,
  is a run of its steps. Proved for every reachable state: exactly-once effects in both stores, no
  message lost, heat that adds up to popularity, and row caches that never miss a change whose heat has
  been applied.
* **Chunked upload** (`ChunkUpload`, `ParallelUpload`, `UploadScheduler`): resumable sessions, exactly
  which bits overlapping requests lose, completion by resuming, the join of the chunks, and the
  browser's scheduler and progress.

## How to read the model

* The main operations say what they do twice: by specification functions, about which the theorems are,
  and over the tables, keys and messages themselves, with no such function in between.
* A row of a list is a `Key` of up to two sort columns and a primary key; `Top(pool, n)` is ORDER BY
  with LIMIT n, and a trimmed sorted set is `Newest(pool, capacity)`.
* SHA-256 and MD5 are injective. Event IDs and random tokens are fresh, and an event ID determines its
  body because the stored body is what is sent. Keys of consumed events are kept unhashed.
* Create times are whole microseconds in the following feed and whole milliseconds in the latest feed,
  where posts of one millisecond stand in key order.
* Failures are parameters, or for the following feed's cache the field `healthy`: a statement that
  fails, a lost reply, a lost Redis command, a cancelled request. One call of a feed reads a database
  that stands still; `IndexStaleness` and `InteractionPipeline` are where tables and caches change under
  way.
* Redis keys expire by the clock. The index outlives its marker (24 hours against 60 seconds), and no
  key is evicted early.

## Results about the code that its documentation does not state

* A following cursor has accepted spellings other than its canonical one (a line break, or stray low
  bits in the last character); `CursorCodec.DecodeCursorIsExact` says exactly which text is canonical.
* A post whose timeline event is consumed late is left out of a hot page and then skipped by the cursor
  (`LatestPages.LatePostIsSkipped`; `LatestFeed.StitchIsExact` says when a page is the database's).
* The latest feed's one-column cursor skips rows that share the millisecond of the last row
  (`LatestPages.TiedPostIsSkipped`). Paging shows every post exactly when no page loses one either way
  (`LatestPages.ReadLatest`); over the database alone, exactly when no two neighbours of the sorted list
  share a millisecond at a multiple of the limit (`LatestPages.LatestPagesAreComplete`).
* If the refill of an empty timeline keeps failing while Redis answers reads, a request starts over each
  time (`LatestFeed.LatestService.ListLatest` ends after as many turns as refills fail).
* The global timeline depends on the delivery order if a video is ever added with two scores
  (`FollowingIndex.UnstableScoresDoNotJoin`).
* A failed fan-out that is tried again does not always leave what one clean run leaves: a push of the
  failed try can keep an index alive that would have expired before the complete run
  (`FollowingIndex.EarlyPushWitness`; `FollowingIndex.EarlyPushShows` is the exact condition).
* Deleting a comment takes back neither popularity nor heat; popularity is the likes and comments that
  are there exactly when no committed delete removed a comment
  (`InteractionStore.PopularityOutlivesComments`).
* Overlapping chunk requests are all accepted, yet some session bits are lost unless every request loaded
  after the write before its own (`ParallelUpload.NothingLostIffInTurn`), so a complete after the
  browser's parallel uploads may be refused. A resume that overlaps a chunk request can undo it too
  (`ParallelUpload.RefreshLosesBit`). Sending the missing chunks again repairs it: a round leaves fewer
  missing exactly when one of its chunks is on the chain of the last write (`ParallelUpload.RoundShrinks`).
* Completing an upload ignores failed deletes in Redis: the invariant "a set bit has its chunk" survives
  exactly when the session was really deleted and no request still holds a set bit. Otherwise the file
  resumes as all there, chunks sent again are accepted unread and every complete fails until the session
  expires (`ChunkUpload.ResumeStranded`, `ChunkUpload.SendToStranded`, `ChunkUpload.CompleteStranded`).

## Model

| member | source | states |
|---|---|---|
| Ranking.Top | backend/internal/followfeed/service.go:65-73 | ORDER BY with LIMIT: descending, within the pool, and a row is missing only when the page is full of rows listed before it |
| Ranking.TopUnique | backend/internal/followfeed/service.go:65-73 | there is only one such page |
| Ranking.TopCount | backend/internal/followfeed/service.go:65-73 | a page holds min(limit, rows) rows, and all of them when they fit |
| Ranking.TopAbsorbs | backend/internal/followfeed/order.go:86-110 | dropping rows that n kept rows precede does not change the first n |
| Ranking.TrimThenUnion | backend/internal/middleware/redis/following.go:13-19 | trimming before adding more keeps the same members as trimming afterwards |
| Ranking.TopResumes | backend/internal/followfeed/service.go:59-73 | a page and then the rows after its last row are the longer page |
| FeedDatabase.ByAuthorsKey | backend/internal/followfeed/service.go:65-73 | the rows a query by author ranges over, both directions |
| FeedDatabase.Smallest | backend/internal/followfeed/service.go:229-232 | the follower batch: the smallest ids, ascending, and all of them when they fit |
| CursorCodec.Member | backend/internal/followfeed/order.go:21 | fixed width of 41 characters |
| CursorCodec.MemberIsDecimal | backend/internal/followfeed/order.go:21 | each of its characters: twenty decimal digits of the microseconds, a colon, twenty of the id |
| CursorCodec.MemberParses | backend/internal/followfeed/order.go:21-46 | the member string of every storable post parses back to it |
| CursorCodec.ParseIsExact | backend/internal/followfeed/order.go:31-46 | a string parses to a post exactly when it is what member prints for it |
| CursorCodec.MemberOrder | backend/internal/followfeed/order.go:21-66 | lexical order of member strings is the (create time, id) order of newer and of SQL |
| CursorCodec.Base64RoundTrip | backend/internal/followfeed/order.go:28-30 | unpadded base64url decodes what it encodes |
| CursorCodec.AlphabetIs | backend/internal/followfeed/order.go:28-30 | the letters are those of base64url |
| CursorCodec.SextetsAreBigEndian | backend/internal/followfeed/order.go:28-30 | four letters say what three bytes say, as one number, and a shorter end is filled up with zero bits |
| CursorCodec.DecodedTextIsEncoding | backend/internal/followfeed/order.go:54-58 | of the texts that decode to the same bytes exactly the canonical one is the encoding |
| CursorCodec.CursorRoundTrip | backend/internal/followfeed/order.go:28-59 | decoding an encoded cursor gives the same time and id |
| CursorCodec.DecodeCursorIsExact | backend/internal/followfeed/order.go:47-59 | which texts are accepted for a post, within which bounds, and which single one is canonical |
| CursorCodec.CursorHasOtherSpellings | backend/internal/followfeed/order.go:54-58 | a cursor with a line break appended is accepted as well |
| MergeHeap.RootIsFirst | backend/internal/followfeed/order.go:72-84 | the root of a heap precedes everything in it |
| MergeHeap.Heap.Swap | backend/internal/followfeed/order.go:76 | exchanges two entries and nothing else |
| MergeHeap.Heap.Init | backend/internal/followfeed/order.go:94 | makes a heap of the same entries |
| MergeHeap.Heap.Push | backend/internal/followfeed/order.go:77-106 | adds one entry, keeps the heap |
| MergeHeap.Heap.Pop | backend/internal/followfeed/order.go:78-98 | removes the first-listed entry, keeps the heap |
| MergeHeap.FirstEntries | backend/internal/followfeed/order.go:88-93 | one entry per source that has any |
| MergeHeap.Turn | backend/internal/followfeed/order.go:97-108 | one loop turn keeps one frontier entry per unfinished source and a correct result, and consumes a row |
| MergeHeap.Refill | backend/internal/followfeed/order.go:103-107 | the popped source returns to the heap unless it is exhausted |
| MergeHeap.Merge | backend/internal/followfeed/order.go:87-110 | the result is the first limit rows of the sorted, id-distinct union of the sources; said of the sources alone: their rows, each id once and in order, and what is not there has an earlier row of its id there or the result is full of earlier ones |
| MergeHeap.FreshestOfRows | backend/internal/followfeed/order.go:96-102 | for rows of one table, id-distinct drops nothing |
| FollowingIndex.RedisIndex.AppendFollowing | backend/internal/middleware/redis/following.go:13-34 | the append script: items and unexpired members are there or the set is full of newer ones, 24 hours for the set, and the 60-second marker only for a rebuild |
| FollowingIndex.RedisIndex.ReadFollowing | backend/internal/middleware/redis/following.go:52-86 | the members after the cursor exactly when set and marker are alive and the marker matches |
| FollowingIndex.AppendsJoin | backend/internal/middleware/redis/following.go:13-50 | any appends within the life of an index, batched, repeated or reordered, leave the newest capacity of everything ever appended |
| FollowingIndex.WritesJoin | backend/internal/middleware/redis/following.go:13-50 | the same on the clock, for pushes and rebuilds at their own times, when no write finds the index expired |
| FollowingIndex.AppendsCommute | backend/internal/middleware/redis/following.go:13-50 | within the life of an index two histories with the same members leave the same members |
| FollowingIndex.AppendTwice | backend/internal/middleware/redis/following.go:13-34 | repeating a push at once changes nothing at all |
| FollowingIndex.RetriedIndex | backend/internal/middleware/redis/following.go:13-34 | failed tries of a push, at any times among other writes, leave no trace after the push that succeeds unless the index expires in between |
| FollowingIndex.SettledTriesVanish | backend/internal/middleware/redis/following.go:13-34 | so does any history in which every failed try is made good by a later push, however often and whatever is written before and after |
| FollowingIndex.EarlyPushShows | backend/internal/middleware/redis/following.go:13-34 | exactly when an earlier push of the same post changes what the later one leaves |
| FollowingIndex.EarlyPushWitness | backend/internal/middleware/redis/following.go:13-34 | an index that expires between a failed try and the complete run, where it does |
| FollowingIndex.TieOrderIsImmaterial | backend/internal/worker/outboxworker.go:113-116 | with distinct scores the order Redis gives equal scores does not show in what is trimmed |
| FollowingIndex.TimelineJoins | backend/internal/worker/outboxworker.go:111-116 | adds and trims of concurrent timeline consumers interleave without effect on the trimmed result |
| FollowingIndex.TimelineIsNewest | backend/internal/worker/outboxworker.go:111-116 | with stable scores the timeline is the newest 1000 videos ever added, for any order of equal scores |
| FollowingIndex.UnstableScoresDoNotJoin | backend/internal/worker/outboxworker.go:111-116 | with two scores for one video the delivery order decides |
| IndexStaleness.SnapshotCovers | backend/internal/followfeed/service.go:151-168 | a rebuild accounts for every post in the database when it reads |
| IndexStaleness.UnionAccounts | backend/internal/middleware/redis/following.go:13-19 | an append to a trimmed index keeps every post accounted for |
| IndexStaleness.RunKeepsInv | backend/internal/followfeed/service.go:143-172 | what every run of inserts, deletes, pushes, overlapping rebuilds and time keeps |
| IndexStaleness.BoundedStaleness | backend/internal/followfeed/service.go:143-172 | what a ready index lacks above its oldest member was inserted after the snapshot behind its marker |
| IndexStaleness.MarkerOutlivedByIndex | backend/internal/middleware/redis/following.go:13-19 | while a marker lives its index has not expired |
| FollowFeed.FullPageIsQuery | backend/internal/followfeed/service.go:174-198 | a full validated page of the index is the SQL page without what the index lacks |
| FollowFeed.ValidationKeepsPage | backend/internal/followfeed/service.go:187-198 | validation that keeps as many rows has kept the page |
| FollowFeed.MergeOfPages | backend/internal/followfeed/service.go:125-140 | cutting every source at limit before merging loses none of the first limit |
| FollowFeed.MergedRead | backend/internal/followfeed/service.go:125-140 | merging the sources is one query over all authors they cover |
| FollowFeed.ExactWhenNothingLacked | backend/internal/followfeed/service.go:74-141 | when no ready consulted index lacks a post the hybrid page is the one-query page |
| FollowFeed.RebuiltLacksNothing | backend/internal/followfeed/service.go:151-168 | an index just rebuilt lacks no post of its authors |
| FollowFeed.TimeLacksNothing | backend/internal/followfeed/service.go:143-172 | as time passes no index comes to lack a post |
| FollowFeed.ReadIsBoundedStale | backend/internal/followfeed/service.go:84-199 | each post a page leaves out was inserted after the snapshot behind the marker of the index consulted for its author |
| FollowFeed.RowsAreSound | backend/internal/followfeed/service.go:187-198 | whatever is missing, rows exist, are by a requested author, strictly after the cursor and descending |
| FollowFeed.Service.constructor | backend/internal/followfeed/service.go:40-55 | zero options take their defaults |
| FollowFeed.Service.Classify | backend/internal/followfeed/service.go:109-120 | authors split exactly by the follower threshold, order kept |
| FollowFeed.Service.Source | backend/internal/followfeed/service.go:143-199 | one source is its SQL page without what a ready index lacks, the only write is a rebuild, and while Redis is healthy the index is ready afterwards |
| FollowFeed.Service.Rebuild | backend/internal/followfeed/service.go:151-168 | recent history is written to that index, or while Redis fails the write may be lost |
| FollowFeed.Service.Pull | backend/internal/followfeed/service.go:125-140 | inbox and celebrity sources together are one query over all followed authors without what they lack |
| FollowFeed.Service.Read | backend/internal/followfeed/service.go:84-141 | over the two tables and the indexes: rows are posts of followed authors after the cursor, newest first; each other such post is missing or the page is full of newer ones; a missing one is lacked by the live, ready index of its author or inbox above an older post; nothing lacked, nothing missing; a healthy read leaves every index it consulted ready; a read makes no index lack more |
| FollowFeed.PageOfTables | backend/internal/followfeed/service.go:65-80 | the specification page, over the two tables |
| FollowFeed.MissingInIndexes | backend/internal/followfeed/service.go:143-199 | what a page misses, over the tables and the indexes |
| FollowFeed.Service.AppendFollowingBatch | backend/internal/middleware/redis/following.go:38-50 | some of the keys are pushed to, all of them when it reports success, which it does while Redis is healthy |
| FollowFeed.Service.PushBatch | backend/internal/followfeed/service.go:227-247 | one batch among the writes of others: progress past its last follower, and everyone up to there is reached |
| FollowFeed.Service.FanOut | backend/internal/followfeed/service.go:226-248 | the loop ends; its pushes come at their own times with the writes of others between them, and on success everyone who followed throughout is reached |
| FollowFeed.Service.Publish | backend/internal/followfeed/service.go:203-248 | the indexes come by a history of its pushes and the writes of others; it succeeds when nothing fails, and then, for a day, the author's index and below the threshold the inbox of whoever followed throughout hold the post or are full of newer ones; a failed query ends the run |
| FollowFeed.ReachedShows | backend/internal/followfeed/service.go:212-248 | whatever others write, within a day every index reached holds the post or is full of newer ones |
| FollowFeed.PushTwice | backend/internal/followfeed/service.go:236-245 | within one batch, pushing again, to more or fewer, is pushing once to all |
| FollowFeed.RestartsConverge | backend/internal/followfeed/service.go:201-203 | failed partial runs and then a complete run, each push at its own time and any other writes between them, leave what the complete run leaves without them, unless an index they reached expires before it is pushed again |
| FeedPages.ListFollowingCursor | backend/internal/feed/service.go:348-370 | over the two tables: posts of followed authors after the cursor, newest first; each other such post is missing, or there is more and the page is full of newer ones; more means such a post; or the error of an impossible limit |
| FeedPages.HybridPage | backend/internal/feed/service.go:348-370 | the reply is the cut page of the hybrid read, exact when nothing is lacked, and no index comes to lack more |
| FeedPages.HasMoreIsExact | backend/internal/feed/service.go:349-356 | has_more is true exactly when rows remain, and then the page is full |
| FeedPages.PageThenRest | backend/internal/followfeed/service.go:59-73 | a full page and everything after its last row are all rows |
| FeedPages.PartialPage | backend/internal/feed/service.go:348-370 | a page over any part of the posts is descending, after the cursor, and leaves less to come |
| FeedPages.Request | backend/internal/feed/service.go:348-370 | one request of the endpoint with a cursor text: it continues the rows, and its own text resumes right after them |
| FeedPages.RequestAdvances | backend/internal/followfeed/service.go:59-80 | a page of the one query continues the rows, and exactly the rest is still to come |
| FeedPages.FollowAll | backend/internal/feed/service.go:348-370 | following next_cursor through the endpoint ends; over the two tables: posts of followed authors, newest first, each once, whatever the indexes hold; all of them when no ready index lacked one and others only read |
| FeedPages.LikesCursorIsSuccessor | backend/internal/feed/repo.go:33-50 | the likes cursor selects exactly the rows listed strictly after its row |
| FeedPages.PopularityCursorIsSuccessor | backend/internal/feed/repo.go:72-91 | so does the three-column cursor; an incomplete one selects everything |
| FeedPages.LikesPagesAreComplete | backend/internal/feed/repo.go:33-50 | paging with the likes WHERE clause visits every selected row once, in order |
| FeedPages.LikesListIsTable | backend/internal/feed/repo.go:33-50 | over the table: every video once with its own likes, in the order of likes and then id |
| FeedPages.PopularityPagesAreComplete | backend/internal/feed/repo.go:72-91 | so does paging with the three-column clause, as primary keys are above zero |
| FeedPages.PopularityListIsTable | backend/internal/feed/repo.go:72-91 | over the table: every video once, in the order of popularity, create time and id |
| LatestFeed.GetVideoByIDs | backend/internal/feed/service.go:38-151 | three tiers give the rows of exactly the ids that exist, in the order asked |
| LatestFeed.StitchIsPage | backend/internal/feed/service.go:237-280 | surviving hot entries and the cold rows after them are the database's page without the posts below the cursor that are no hot row and no older than the last one |
| LatestFeed.StitchIsExact | backend/internal/feed/service.go:237-280 | the page is the database's if and only if every such post would not have fitted on it anyway; with distinct times, if and only if there is none |
| LatestFeed.LatestService.ListLatest | backend/internal/feed/service.go:154-295 | over the table: rows are videos older than the cursor, newest first; each other such video is lost, or the page is full of newer ones, or its cold query failed; nothing is lost over an upward closed timeline of distinct times; the refill is the newest thousand; next_time, has_more and failures |
| LatestFeed.LatestService.Respond | backend/internal/feed/service.go:154-295 | the reply is the database's without posts overtaken on their way to the timeline |
| LatestFeed.LatestService.Serve | backend/internal/feed/service.go:154-204 | database, timeline, or a refill and another turn; it ends, and what it leaves out is what the timeline in use lacks |
| LatestFeed.LatestService.FromTimeline | backend/internal/feed/service.go:206-280 | cold requests are the database's; hot ones are, without what the timeline lacks, and which that is |
| LatestFeed.LatestService.Watermark | backend/internal/feed/service.go:206-211 | the score of the oldest timeline entry |
| LatestFeed.LatestService.Stitch | backend/internal/feed/service.go:227-280 | hot rows, then cold rows for the places left unless their query fails |
| LatestFeed.LatestService.Rebuild | backend/internal/feed/service.go:184-192 | the empty timeline gets the newest rows, or stays empty when the command fails |
| LatestFeed.RebuiltIsCoherent | backend/internal/feed/service.go:171-192 | a rebuilt timeline is upward closed |
| LatestFeed.ConsumedIsCoherent | backend/internal/worker/outboxworker.go:111-116 | so is the timeline of a consumer that has caught up, whatever has been deleted |
| LatestPages.OneColumnCursorIsExactUnlessTied | backend/internal/feed/repo.go:20-31 | the latest cursor resumes exactly after a row if and only if no tied row is listed after it |
| LatestPages.OnePage | backend/internal/feed/service.go:280-287 | what a request asks for is on its page, or left out by it for good, or left for the next request, and only one of these |
| LatestPages.Client.LoadMore | frontend/src/composables/useVideoFeed.ts:40-54 | one more page is a page of the feed for the cursor of the page before, and less is still asked for |
| LatestPages.ReadLatest | backend/internal/feed/service.go:154-295 | following next_time until has_more is false ends; over the table: videos newest first, each once, and one not shown was lost by a page or has the time of the last row of a page it was not on; all are shown if and only if no page loses or splits any; without losses, if and only if no tie stands at a cut of the sorted list |
| LatestPages.LatestPagesAreComplete | backend/internal/feed/repo.go:20-31 | paging the database from any cursor shows every post if and only if no two posts of one millisecond stand at a multiple of the limit in the sorted list |
| LatestPages.TiedPostIsSkipped | backend/internal/feed/repo.go:20-31 | two posts of one millisecond, of which the second is never shown |
| LatestPages.LatePostIsSkipped | backend/internal/feed/service.go:227-287 | three posts of different times, the second not on the timeline yet: it is on no page |
| InteractionStore.QualifiedIsInjective | backend/internal/video/interaction_events.go:31-48 | event keys and heat ids never clash between likes and comments |
| InteractionStore.Database.ApplyLikeEvent | backend/internal/video/like_repo.go:53-86 | the whole effect of a like delivery, or none after a failure at any statement |
| InteractionStore.Database.ApplyCommentEvent | backend/internal/video/comment_repo.go:61-93 | the whole effect of a comment delivery, or none |
| InteractionStore.Database.ConsumeEvent | backend/internal/video/interaction_events.go:27-41 | record and effect commit together or not at all; a known key commits nothing |
| InteractionStore.Database.LikeIgnoreDuplicate | backend/internal/video/like_repo.go:98-111 | inserts a new pair, reports an existing one as unchanged |
| InteractionStore.Database.DeleteByVideoAndAccount | backend/internal/video/like_repo.go:113-121 | deletes the pair and reports whether it was there |
| InteractionStore.Database.EnqueuePopularity | backend/internal/video/interaction_events.go:43-49 | one heat row under the qualified id, an error for a zero time |
| InteractionStore.ExactlyOnce | backend/internal/video/interaction_events.go:27-41 | any trace of duplicates, reorderings and aborts equals applying, without an inbox, the first committed delivery of each event |
| InteractionStore.ReplayChangesNothing | backend/internal/video/interaction_events.go:26-41 | a committed event delivered again, however much later, changes nothing |
| InteractionStore.TrimIsExact | backend/internal/video/comment_repo.go:72-83 | only space is cut off, all of it at both ends; blank text and no other trims to nothing |
| InteractionStore.LastEventDecides | backend/internal/video/like_repo.go:69-74 | a user likes a video exactly when the last event that took effect for the two is a like |
| InteractionStore.CommentsFollowEvents | backend/internal/video/comment_repo.go:65-86 | the comments are those published and not deleted since, trimmed, under their own ids |
| InteractionStore.EffectKeepsCounted | backend/internal/video/like_repo.go:78-81 | counters stay exact and the clamp at zero never changes a value |
| InteractionStore.CountersAreExact | backend/internal/video/like_repo.go:57-85 | likes_count is the number of like rows, popularity that plus the committed comment publishes |
| InteractionStore.HeatFollowsChange | backend/internal/video/like_repo.go:75-84 | heat is enqueued exactly when counters change, with the change of popularity |
| InteractionStore.HeatIsConserved | backend/internal/video/interaction_events.go:43-49 | over any run popularity moves by the sum of the heat enqueued |
| InteractionStore.HeatStaysKeyed | backend/internal/video/interaction_events.go:43-49 | all heat ids are distinct and belong to consumed events |
| InteractionStore.CommentsAreCounted | backend/internal/video/comment_repo.go:65-86 | over any run comments are what was published without what was removed |
| InteractionStore.PopularityOutlivesComments | backend/internal/video/comment_repo.go:66-91 | popularity is likes plus existing comments if and only if no committed delete removed a comment, and otherwise exceeds them by those |
| OutboxRelay.ConfirmedPublisher.Publish | backend/internal/middleware/rabbitmq/publisher.go:26-63 | success exactly when acknowledged with no return pending, and then queued; when the failed latch is set; nothing is sent after it |
| OutboxRelay.Outbox.DispatchOutbox | backend/internal/worker/outboxworker.go:26-45 | the lowest free row leaves exactly when its publish succeeded and the transaction committed; what is sent for it, with the row's own id, video and create time or its own exchange, key and payload; a failing SELECT or an empty turn sends nothing |
| OutboxRelay.Outbox.RunOutboxPoller | backend/internal/worker/outboxworker.go:46-89 | with rows and locks coming and going and other pollers deleting what they hold, every row that left has its message queued and only messages of rows are sent; it goes on while nothing goes wrong, and undisturbed sound turns empty what may be claimed |
| OutboxRelay.EverThereHolds | backend/internal/worker/outboxworker.go:46-89 | the rows that have ever been there are those of the start and those inserted since, each as it was inserted |
| TimelineConsumer.Timeline.Consume | backend/internal/worker/outboxworker.go:90-127 | one delivery: dropped, or the video added with its create time and the rest trimmed, acknowledged exactly when both commands are reported done |
| TimelineConsumer.Timeline.ConsumeAll | backend/internal/worker/outboxworker.go:90-127 | deliveries in any order and number add exactly the keys of events delivered, and of every one acknowledged |
| TimelineConsumer.TimelineGetsVideos | backend/internal/worker/outboxworker.go:78-127 | once all video rows are relayed and consumed, the keys added are exactly the create times and ids of those rows |
| TimelineConsumer.RelayAndConsume | backend/internal/worker/outboxworker.go:46-127 | the poller's run and then the consumer's put exactly the videos of the rows there and inserted since on the timeline |
| EventWorker.Process | backend/internal/worker/likeworker.go:88-99 | malformed bodies are dropped, others are one attempt at the transaction |
| EventWorker.HandleDelivery | backend/internal/worker/likeworker.go:60-99 | over the event and the tables: a like or unlike in order and undisturbed is acknowledged and recorded, its row is there exactly if it is a like, and counters and heat move by the change in the rows; a comment leaves its trimmed row, a delete none; one out of order is never acknowledged and changes nothing; exactly one settlement, an effect at most once, dead-lettered only after four failures |
| EventWorker.Deliver | backend/internal/worker/likeworker.go:60-86 | exactly one settlement, an effect at most once, acknowledged only when done, requeued only by a stopped worker, dead-lettered only after four failures |
| EventWorker.LikeCommits | backend/internal/video/like_repo.go:53-86 | the effect of a like or unlike on each table |
| EventWorker.CommentCommits | backend/internal/video/comment_repo.go:61-93 | which comment events commit, and the effect of each on each table |
| EventWorker.NeverCommits | backend/internal/video/comment_repo.go:61-93 | events out of order never commit, whatever the worker does |
| HeatWorker.Process | backend/internal/worker/popularityworker.go:88-97 | empty heat is dropped, other heat is one run of the script, whose reply may be lost |
| HeatWorker.HandleDelivery | backend/internal/worker/popularityworker.go:60-97 | over the event and the keys: heat in order, undisturbed and not seen before is acknowledged after one attempt and adds its change to the minute it happened in while that lives; heat seen before changes nothing; every attempt that reached Redis counted, dead-lettered only after four failures |
| PipelineRefinement.Poll | backend/internal/worker/outboxworker.go:26-45 | a turn of the poller is a claim, a send of the claimed message's exchange, key and body queued exactly when the publisher's was, and a delete or release |
| PipelineRefinement.HandleEvent | backend/internal/worker/likeworker.go:60-99 | a handled like or comment is at most one committing transaction and one settlement step whose guard holds |
| PipelineRefinement.HandleHeat | backend/internal/worker/popularityworker.go:60-97 | a handled heat event is its script runs and one settlement step whose guard holds |
| PipelineRefinement.LoadRow | backend/internal/video/video_service.go:123-139 | a load among everybody's steps is a reader's run through the pipeline, and leaves in the cache what that leaves |
| HeatCache.Cache.ApplyPopularity | backend/internal/middleware/redis/interaction.go:40-81 | over the event and the keys: which events are refused or seen; heat goes to the minute it happened in while less than two hours have passed since it began, with the mark and the deadline; generation and invalidation; a type error changes nothing |
| HeatCache.Cache.VideoGeneration | backend/internal/middleware/redis/interaction.go:13-22 | the current token, empty when absent |
| HeatCache.Cache.SetVideoBytes | backend/internal/middleware/redis/interaction.go:24-38 | stores exactly under the captured generation |
| HeatCache.Cache.HotSnapshot | backend/internal/feed/service.go:380-391 | the union scores every video with its live scores of the 60 minutes |
| HeatCache.Cache.HotList | backend/internal/feed/service.go:374-394 | a snapshot kept less than two minutes is reused, otherwise a new one is taken |
| HeatCache.HeatInvHolds | backend/internal/middleware/redis/interaction.go:40-60 | marks and buckets match the deliveries and the clock in every run |
| HeatCache.HeatIsExactlyOnce | backend/internal/middleware/redis/interaction.go:40-81 | a live bucket is the sum over distinct events of its minute first delivered before its deadline |
| HeatCache.NoResurrection | backend/internal/middleware/redis/interaction.go:53-58 | an expired bucket stays absent whatever is delivered |
| HeatCache.ReplayAddsNothing | backend/internal/middleware/redis/interaction.go:44-58 | a replay, before or after its mark expired, adds to no bucket |
| HeatCache.WindowIsAlive | backend/internal/feed/service.go:374-383 | the hour ending at as_of is whole until 61 minutes after as_of and no longer |
| HeatCache.HotWindowIsExact | backend/internal/feed/service.go:374-391 | the snapshot of a whole window is, to the millisecond, the sum over the distinct events of its hour that were in time |
| HeatCache.HotListIsExact | backend/internal/feed/service.go:374-391 | so is the hot list a reader gets, unless a snapshot is kept |
| HeatCache.PagesShareSnapshot | backend/internal/feed/service.go:385-391 | heat arriving between pages does not move a kept snapshot |
| VideoDetail.Load | backend/internal/video/video_service.go:123-139 | answers the database's row and fills under the captured generation |
| VideoDetail.LoadAmong | backend/internal/video/video_service.go:123-139 | with anything happening in between: the row is the table's at its read, and it is stored only if the generation from before the read still stands at the fill |
| VideoDetail.GetDetail | backend/internal/video/video_service.go:108-173 | the answer is a cached row, or the table's when no look at the cache found one, with or without the lock; exact over an exact cache |
| InteractionPipeline.ConsumeKeepsStore | backend/internal/video/interaction_events.go:27-49 | a transaction keeps counters, heat ids and the version history in step |
| InteractionPipeline.StepKeepsPlaces | backend/internal/worker/outboxworker.go:24-45 | every step keeps every message somewhere, and acknowledged rows past the outbox |
| CacheCoherence.FillKeepsRows | backend/internal/middleware/redis/interaction.go:24-38 | a guarded fill stores only a row that misses no applied change |
| CacheCoherence.ApplyKeepsReaders | backend/internal/middleware/redis/interaction.go:30-52 | after an invalidation a slow reader's generation is over |
| CacheCoherence.StepKeepsCache | backend/internal/middleware/redis/interaction.go:24-60 | every step keeps both cached tiers and all rows under way covered |
| PipelineTheorems.RunKeepsInv | backend/internal/worker/outboxworker.go:24-45 | all pipeline invariants hold along every run |
| PipelineTheorems.NothingIsLost | backend/internal/worker/outboxworker.go:24-45 | every accepted event and every heat event is in the outbox, at the broker, in flight, done or dead-lettered |
| PipelineTheorems.EffectsAreExactlyOnce | backend/internal/video/interaction_events.go:27-41 | the tables of any reachable state hold the effects of distinct events, once each |
| PipelineTheorems.HeatAddsUp | backend/internal/video/interaction_events.go:43-49 | popularity is the heat applied, dead-lettered and waiting, and what waits is in outbox, broker or flight |
| PipelineTheorems.CachedRowsAreCovered | backend/internal/feed/service.go:116-136 | a row cached under either key reflects every commit whose heat has been applied, however late it was filled |
| PipelineTheorems.QuietRowsAreExact | backend/internal/video/video_service.go:123-139 | with no heat of a video pending, cached counters equal the database's |
| PipelineTheorems.BucketsAreExactlyOnce | backend/internal/middleware/redis/interaction.go:40-81 | the buckets of any reachable state hold each distinct event once |
| ChunkUpload.UploadedChunks | backend/internal/video/chunk_entity.go:16-24 | the indices of the set bits, ascending, each once |
| ChunkUpload.IsComplete | backend/internal/video/chunk_entity.go:26-33 | true exactly when every bit is set |
| ChunkUpload.CountMissing | backend/internal/video/chunk_handler.go:296-305 | the number of missing chunks, reported as at most five |
| ChunkUpload.ChunkServer.InitChunkUpload | backend/internal/video/chunk_handler.go:66-134 | limits, resume of an unfinished session with its chunks, or a new session with none |
| ChunkUpload.ChunkServer.BeginChunk | backend/internal/video/chunk_handler.go:148-172 | the checks of a chunk request and the session copy it works on |
| ChunkUpload.ChunkServer.StoreChunk | backend/internal/video/chunk_handler.go:187-223 | a body is stored exactly when it has the declared hash |
| ChunkUpload.ChunkServer.SaveSession | backend/internal/video/chunk_handler.go:55-64 | the whole copy replaces the session, and every set bit still has its chunk |
| ChunkUpload.ChunkServer.CompleteChunkUpload | backend/internal/video/chunk_handler.go:267-373 | every answer: not found, forbidden, the refusal of an incomplete upload with its exact counts, or an error; when a complete succeeds, and then the content is the client's file from any server state; what is cleaned up, and when set bits keep their chunks |
| ChunkUpload.FailedCleanup | backend/internal/video/chunk_handler.go:359-364 | after deletes that fail the session claims every chunk and the disk has none |
| ChunkUpload.ResumeStranded | backend/internal/video/chunk_handler.go:90-105 | such an upload resumes as all there |
| ChunkUpload.SendToStranded | backend/internal/video/chunk_handler.go:169-172 | a chunk sent again is accepted unread |
| ChunkUpload.CompleteStranded | backend/internal/video/chunk_handler.go:339-347 | every complete fails |
| ChunkUpload.AfterExpiry | backend/internal/video/chunk_handler.go:90-133 | once the session is gone the file starts anew |
| ChunkUpload.JoinedIsOriginal | backend/internal/video/chunk_handler.go:338-357 | chunks with the declared hashes join to the original file |
| ParallelUpload.BitSurvives | backend/internal/video/chunk_handler.go:148-227 | a bit is set after a round exactly when it was before or a request that brought it is on the chain of copies behind the last write |
| ParallelUpload.NothingLostIffSpare | backend/internal/video/chunk_handler.go:90-227 | with chunks sent twice, resumes in between and failing writes: no accepted bit is lost if and only if each write off the chain brought nothing the chain lacks |
| ParallelUpload.NothingLostIffInTurn | backend/internal/video/chunk_handler.go:148-227 | when every writing request loaded after the write before its own no accepted bit is lost, and with a chunk of its own to each request only then |
| ParallelUpload.TwoAtOnce | backend/internal/video/chunk_handler.go:148-227 | of two requests that overlap only the second write's bit stays |
| ParallelUpload.RefreshLosesBit | backend/internal/video/chunk_handler.go:90-105 | a resume whose refresh lands after an accepted chunk it had not seen takes the chunk's bit away |
| ParallelUpload.OldBitsStay | backend/internal/video/chunk_handler.go:148-227 | what was set when a round began stays set in every copy and after every write |
| ParallelUpload.RoundShrinks | backend/internal/video/chunk_handler.go:148-227 | a round leaves no more chunks missing, and strictly fewer exactly when some chunk of it is on the chain of the last write |
| ParallelUpload.RunRound | backend/internal/video/chunk_handler.go:66-230 | any interleaving of the loads and writes of chunk requests and resumes on the server, with failing ones among them, leaves exactly those bits |
| ParallelUpload.UploadInRounds | backend/internal/video/chunk_handler.go:66-357 | rounds of any kind complete after at most as many useful ones as chunks were missing, and the server joins exactly the file |
| UploadScheduler.OneMoreChunk | frontend/src/views/VideoView.vue:170-176 | a chunk counts for its own bytes |
| UploadScheduler.AllBytes | frontend/src/views/VideoView.vue:143-148 | all chunks of a file are exactly its size |
| UploadScheduler.PercentIsRounded | frontend/src/views/VideoView.vue:170-176 | progress is the nearest whole hundredth of the bytes there, and 100 for all of them |
| UploadScheduler.ListMissing | frontend/src/views/VideoView.vue:153-159 | the missing chunks, ascending, each once |
| UploadScheduler.Upload.Next | frontend/src/views/VideoView.vue:201-214 | at most three active, and afterwards as many as may be or settled |
| UploadScheduler.Upload.StartOne | frontend/src/views/VideoView.vue:207-210 | starts the next pending chunk, never one started before |
| UploadScheduler.Upload.OnSuccess | frontend/src/views/VideoView.vue:211 | frees the place and counts the chunk once |
| UploadScheduler.Upload.OnFailure | frontend/src/views/VideoView.vue:212 | rejects, and starts nothing more |
| UploadScheduler.Upload.ResolvedMeansComplete | frontend/src/views/VideoView.vue:197-216 | resolved means every missing chunk sent and progress exactly the file size |
| UploadScheduler.TryChunk | frontend/src/views/VideoView.vue:184-194 | at most three tries, stopping at the first that works |
| UploadScheduler.RunUpload | frontend/src/views/VideoView.vue:197-216 | the upload settles; it resolves exactly when every chunk that begins before the end of the file and was not there works on some try, with progress 100; it rejects only for a missing one that does not |

## Left out

- FollowFeed.Service.Read: the database stands still during one read, and an SQL error, which ends it, is not modelled; `FollowFeed.ReadIsBoundedStale` covers changes between reads.
- FollowFeed.Service.Source: the same.
- FeedPages.FollowAll: the tables stand still over the pages of one run.
- FollowingIndex.AppendsJoin: is about one life of the index, as AppendsCommute; WritesJoin has the clock.
- IndexStaleness.BoundedStaleness: an index evicted while its marker survives is assumed not to happen.
- LatestFeed.LatestService.ListLatest: posts of one millisecond stand in key order in Redis and in the database, which promise no order for them, and errors while a page is decorated for its viewer are not modelled.
- LatestPages.ReadLatest: the tables stand still over one run, and the timeline changes only when it is refilled; a page whose cold query fails is not part of a run.
- LatestFeed.GetVideoByIDs: both cache tiers are assumed to agree with the database, the five-second in-process one since it carries no version; write-backs are steps of the pipeline.
- HeatCache.Cache.HotList: the ranking of equal scores and the paging by offset are not modelled, only the scores every page is cut from.
- HeatCache.HeatIsExactlyOnce: scores are integers; beyond 2^53 a sorted set's floating-point scores would round.
- HeatCache.Cache.SetVideoBytes: the expiry of a stored row is the pipeline's step Evict, which may happen at any time.
- VideoDetail.GetDetail: one request over a table that stands still, as for VideoDetail.Load; `PipelineRefinement.LoadRow` has a load among all other steps.
- PipelineTheorems.HeatAddsUp: starts from empty tables and zero counters, and other writers of counters are not steps: ApplyLike, UpdateLikesCount and video deletion bypass the heat outbox, and UpdatePopularity enqueues heat but changes popularity by any amount, below zero too.
- ChunkUpload.ChunkServer.CompleteChunkUpload: runs as one step, and a chunk file is written in one step, so a complete racing a chunk write is not modelled.
- ParallelUpload.UploadInRounds: the session does not expire during the upload.
- singleflight, which only merges equal concurrent calls, is not modelled.
- Accounts, tokens, messages, notifications, the rate limiter, tags, supervisors and reconnects, HTTP and JSON handling: nothing in them spans functions in a way proved here.
- The rendering and stores of the Vue front end, except the upload function.
