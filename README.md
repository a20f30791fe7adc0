# News recommendation service: the recommendation path in Dafny

This project models the recommendation path of a FastAPI news service and the store rules it relies on.

- **Embedding cache.** A get-or-compute map from a post header to its embedding. The sentence encoder is a fixed, opaque, deterministic function.
- **Similar posts.** The posts of the last week are scored against one post. They are filtered by the similarity threshold (0.4), stable-sorted by descending score, the first entry is skipped by position, and at most three are kept.
- **Personal feed.** The similar posts of each post the user viewed in the last week are united, the viewed posts are subtracted, and the rest is paginated.
- **Store layer.** The users, posts and comments tables, and a per-user browsing history. The history is a Redis sorted set of post id to timestamp of the last view. The store rules are: unique usernames, delete-or-not-found, page-validated listings, a one-week history window, and a prune that only touches entries older than the window.
- **Page arithmetic.** `calculate_total_pages` (ceiling division; an empty listing has one page) and the configured page size of 2.

Modules follow the source files:

| module | file |
|---|---|
| `Models` | app/database/models.py and the constants of app/config.py |
| `Pages` | the page arithmetic of app/utils/common.py |
| `Common` | the lookup and encoding helpers of app/utils/common.py |
| `Crud` | app/database/crud.py |
| `Ml` | app/utils/ml.py |
| `PostsRouter` | app/routers/posts.py |

common.py imports crud.py and crud.py imports common.py. Dafny modules cannot import each other in a cycle, so common.py is split into `Pages` and `Common`.

Modelling choices:
- **Scores.** Each cosine score is attached to its recent post by position, as `cosine_scores[0][i]` is. Each candidate also carries that position, so "stable" can be stated: `Ranked` orders by score descending, then by original position. `RankedUnique` shows that only one list is ordered this way. So any stable descending sort, Python's included, gives the list that `StableSortDesc` computes.
- **Timestamps.** They are whole seconds, and a week is 604800 seconds.
- **Prune trigger.** The `randint(1, 5) == 1` draw is the boolean parameter `prune`.
- **Clock.** "Now" is a parameter.
- **Ids.** A new row gets SQLite's rowid for an INTEGER PRIMARY KEY: one more than the largest id in the table, or 1 for an empty table. Tables are kept in rowid order, and unordered queries return them in that order.
- **Feed order.** `list(set)` in `get_feed` has no defined order. `ListOf` picks an arbitrary order, and `GetFeed` names that list as a ghost out-parameter.
- **Empty week.** `find_similar_recent_posts` calls `torch.cat` on the embeddings of the recent posts. That call fails when the last week has no posts. The model returns `NoRecentPosts` there. The routes turn it into a 500, as an uncaught exception would be.
- **Paged listing.** `get_posts_for_last_week` with a page reads the whole post table, not only the last week, because `get_posts_by_page` does not filter by date. The model keeps that.

## Model

| member | source | states |
|---|---|---|
| `Pages.TotalPages` | app/utils/common.py:13-14 | at least one page; 0 items give 1 page; for n > 0 items, (pages-1)*size < n <= pages*size, i.e. the ceiling of n/size |
| `Pages.PageSize` | app/utils/common.py:17-18 | the configured page size (2) is at least 1, so every page has room |
| `Pages.PageOfSpec` | app/routers/posts.py:129-139 | a page past the page count is refused; any other page starts inside the listing and is exactly items[(page-1)*size : page*size] clamped to the end, empty only for an empty listing |
| `Pages.ItemOnPage` | app/database/crud.py:104-110 | pagination loses nothing: item i sits on the valid page i/size+1 at position i mod size |
| `Crud.GetUserByUsername` | app/database/crud.py:14-16 | returns a stored user with that username, or None exactly when no user has it |
| `Crud.GetPostById` | app/database/crud.py:65-67 | returns the stored post with that id, or None exactly when no post has it |
| `Crud.WithoutPost` | app/database/crud.py:73-75 | the deletion keeps exactly the posts with a different id |
| `Crud.WithoutPostRemovesOne` | app/database/crud.py:70-75 | deleting a present id from a valid table removes exactly one row |
| `Crud.WithoutPostValid` | app/database/crud.py:70-75 | deleting rows keeps the ids increasing and positive |
| `Crud.AllPostsAfterDate` | app/database/crud.py:88-92 | a post is listed iff it is in the table and posted_at >= start_date |
| `Crud.AllPostsAfterDateOrdered` | app/database/crud.py:88-92 | the listing keeps the table's id order |
| `Crud.AllPostsForLastWeek` | app/database/crud.py:83-85 | a post is listed iff it is in the table and was posted at or after now minus one week |
| `Crud.GetPostsByPage` | app/database/crud.py:100-112 | InvalidPageNum iff page > total pages of the table; otherwise exactly the table slice [(page-1)*size : page*size] (OFFSET/LIMIT), with the total page count |
| `Crud.GetPostsByPageExample` | app/database/crud.py:100-112 | three posts with two to a page: page 2 is [post3] of 2 pages, and page 123 is refused |
| `Crud.CommentsOfPost` | app/database/crud.py:160-164 | a comment is listed iff it is in the table and belongs to that post |
| `Crud.GetCommentsByPostIdAndPageAsWritten` | app/database/crud.py:172-190 | as written: InvalidPageNum iff the page is past the page count of the post's own comments, and that count is returned; the page is exactly the slice [(page-1)*size : page*size] of the whole comment table |
| `Crud.CommentsPageLeaksOtherPosts` | app/database/crud.py:186-188 | with a comment on post 1 and one on post 2, the first comment page of post 2 contains the comment of post 1, while the corrected query returns only the comment of post 2 |
| `Crud.GetCommentsByPostIdAndPage` | app/database/crud.py:172-190 | corrected: the same page check and count; the page is exactly the slice [(page-1)*size : page*size] of the post's own comments |
| `Crud.CommentsPageOwnPostOnly` | app/database/crud.py:172-190 | corrected: every comment on a page belongs to the requested post |
| `Crud.Database.CreateUser` | app/database/crud.py:27-52 | a taken username gives UserAlreadyExists and no change; otherwise exactly one user with a fresh id and the given role (Client when none is given) is appended; usernames stay unique |
| `Crud.Database.CreateAdmin` | app/database/crud.py:19-24 | create_user with the Admin role: a taken username gives UserAlreadyExists and no change; otherwise exactly the new Admin user with the given fields and a fresh id is appended |
| `Crud.Database.CreatePost` | app/database/crud.py:55-62 | appends exactly one post with an id not yet in the table, dated now, and nothing else changes |
| `Crud.Database.RemovePostById` | app/database/crud.py:70-80 | PostNotFound iff the id is absent, with the table unchanged; otherwise exactly that post is removed, one row fewer |
| `Crud.PrunedAtMost` | app/database/crud.py:133-134 | ZREMRANGEBYSCORE max=m keeps exactly the entries scored above m, with their scores |
| `Crud.PruneKeepsWindow` | app/database/crud.py:133-138 | pruning at start-1 never changes what the window read at start returns, and removes only entries older than start |
| `Crud.PostsWithIds` | app/database/crud.py:143-147 | a post is returned iff it is in the table and its id is among the given ids; ids of deleted posts fall away |
| `Crud.RecentlyViewed` | app/database/crud.py:121-147 | a post is returned iff it still exists and its recorded view is at or after now minus one week |
| `Crud.HistoryStore.UpdateBrowsingHistory` | app/database/crud.py:115-118 | the viewed post's score in this user's set becomes the current timestamp, overwriting an earlier view; other users' sets are unchanged |
| `Crud.HistoryStore.GetRecentlyViewedPostsForLastWeek` | app/database/crud.py:121-147 | returns the recently viewed posts of the history as it was before the call, whether or not the prune ran; the prune replaces the user's set by its entries newer than the window minus one second, or drops an emptied set |
| `Common.PostNotFoundError` | app/utils/common.py:31-34 | the not-found answer has status 404 |
| `Common.NotFoundMessageExample` | app/utils/common.py:31-34 | for id 123 the detail is "Post with id = 123 was not found" |
| `Common.Base64OptionalEncode` | app/utils/common.py:21-24 | None maps to None, and any bytes value (even empty) maps to its encoding |
| `Common.GetPostOrThrowNotFoundException` | app/utils/common.py:27-36 | returns the stored post with that id, or the 404 answer exactly when no post has that id |
| `Ml.EmbeddingCache.GetOrCalculateEmbeddingOfHeader` | app/utils/ml.py:28-35 | a hit returns the stored value without running the encoder; a miss runs it once and stores the result under exactly that header; no other key changes; the answer is always the header's encoding |
| `Ml.LookupTwice` | app/utils/ml.py:28-35 | idempotence: a second lookup of the same header returns the first answer, and together the two lookups write at most that key |
| `Ml.AboveThresholdMembers` | app/utils/ml.py:58-60 | a scored post is kept iff its score is strictly above 0.4 |
| `Ml.AboveThresholdKeepsOrder` | app/utils/ml.py:58-60 | the filter keeps the recent posts' order |
| `Ml.InsertPerm` | app/utils/ml.py:61-63 | insertion adds exactly the one element |
| `Ml.StableSortPerm` | app/utils/ml.py:61-63 | the sort is a permutation of its input |
| `Ml.InsertRanked` | app/utils/ml.py:61-63 | inserting a later element into a ranked list keeps it ranked |
| `Ml.StableSortRanked` | app/utils/ml.py:61-63 | sorting a list in original order gives non-increasing scores with ties in original order |
| `Ml.RankedUnique` | app/utils/ml.py:61-63 | two ranked arrangements of the same elements are equal, so every stable descending sort agrees |
| `Ml.RankedCandidatesSpec` | app/utils/ml.py:57-63 | the ranked candidates are exactly the recent posts scoring above 0.4, each with its own score, in non-increasing score order with ties in recent order |
| `Ml.SimilarRecentPostsSpec` | app/utils/ml.py:57-66 | the answer is the ranked candidates after the first, at most 3 of them, and empty when at most one post passes; each is a recent post above 0.4, best first |
| `Ml.SelfExcludedWhenStrictlyBest` | app/utils/ml.py:65-66 | when the original post is a recent post above 0.4 that scores strictly above every other post, it is not in its own answer |
| `Ml.PositionalSkipDropsBestMatch` | app/utils/ml.py:65-66 | the skip is positional: for any distinct recent posts and any scores, the best-ranked candidate is never returned, so an original that is not itself a recent post loses its best genuine match |
| `Ml.PositionalSkipExample` | app/utils/ml.py:65-66 | two posts scoring 0.9 and 0.8 against an unrelated original: only the second is returned |
| `Ml.EmbedHeaders` | app/utils/ml.py:47-49 | the embeddings are those of the headers, in order, and the cache gains exactly those headers |
| `Ml.FindSimilarRecentPosts` | app/utils/ml.py:38-66 | fails when the week has no posts; otherwise returns the selection over the encoder's scores, whatever the cache held; the cache gains exactly the original and recent headers and stays consistent |
| `PostsRouter.AddNewPost` | app/routers/posts.py:44-59 | a non-admin gets 403 and no post is created; an admin's post is appended under a fresh id, which is returned |
| `PostsRouter.GetPostsForLastWeek` | app/routers/posts.py:63-96 | without a page: the posts of the last week as page 1 of 1; with a page: 400 past the table's page count, otherwise exactly the slice [(page-1)*size : page*size] of the whole table |
| `PostsRouter.SimilarLists` | app/routers/posts.py:116-122 | one similar list per viewed post, in order, each the similar posts of that viewed post |
| `PostsRouter.GatherSimilar` | app/routers/posts.py:112-125 | the gather gives the similar lists of the viewed posts in order, or fails when a post was viewed but the week has no posts; the cache gains exactly the viewed and recent headers (only the first viewed header on failure) |
| `PostsRouter.GatherNext` | app/routers/posts.py:116-122 | one gather task: the similar list of the next viewed post is appended, or the week is empty; the cache gains that post's header and the recent headers |
| `PostsRouter.ChainedSetMembers` | app/routers/posts.py:112-125 | a post is in the chained set iff it is in at least one of the gathered lists |
| `PostsRouter.RecommendableMembers` | app/routers/posts.py:112-127 | a post is a feed candidate iff it was not just viewed and is similar to some viewed post; every candidate is a post of the last week |
| `PostsRouter.ListOf` | app/routers/posts.py:127 | the list holds exactly the set's members, each once |
| `PostsRouter.PaginateFeed` | app/routers/posts.py:129-141 | no page: all candidates with total_pages 1; page past the count: 400 "Page number is too big"; otherwise exactly candidates[(page-1)*size : page*size] |
| `PostsRouter.GetFeed` | app/routers/posts.py:100-161 | the candidates have no duplicates and are exactly the recommendable posts, so the feed never holds a viewed post; the page is their pagination; the request fails when a post was viewed but the week has no posts; the cache keeps its keys and gains exactly the headers looked up; the history changes only by the optional prune |
| `PostsRouter.RemoveExistingPost` | app/routers/posts.py:165-183 | the role check comes first: a non-admin gets 403 even for a missing id; an admin gets 404 for a missing id; in both cases nothing is removed; otherwise exactly that post is deleted |
| `PostsRouter.GetSinglePost` | app/routers/posts.py:187-199 | the answer is the lookup of common.py: the post iff it exists, else 404 with nothing recorded; a found post's view is recorded, stamped now, in the reader's history |
| `PostsRouter.GetSimilarPosts` | app/routers/posts.py:216-222 | 404 with the cache untouched for a missing id; otherwise the similar posts of that post among the posts of the week, and the cache gains exactly that post's header and the recent headers |

## Findings

| source | as written | input that shows it | evidently intended | confidence | as-written member | corrected member |
|---|---|---|---|---|---|---|
| app/database/crud.py:186-188 | the page of comments is sliced from the whole comment table; only the page count is limited to the post's comments | comments c1 on post 1 and c2 on post 2; post 2, page 1 returns [c1, c2] | slice the post's own comments | high (not executed) | `Crud.CommentsPageLeaksOtherPosts` | `Crud.GetCommentsByPostIdAndPage` |

## Left out

- The sentence encoder and `util.pytorch_cos_sim`. They are floating-point tensor numerics in a foreign library. The encoder is the cache's `encode` function, and the cosine is a function parameter. Scores are exact reals, so float32 rounding against 0.4, NaN scores and ties from rounding are not modelled.
- The `pickle` round trip of cached tensors. The cache stores embeddings directly.
- The concurrency of `asyncio.gather`. The embedding lookups and the per-post similarity searches run one after another. Two concurrent requests racing on the same uncached header are not modelled.
- Clock readings. Each route reads one `now`. In the source, the history read and the recent-post query each read the clock separately.
- The local-time conversion in `datetime.fromtimestamp`. The window start is exactly now minus 604800 seconds, even across a daylight-saving change. With float timestamps, entries scored strictly between start-1 and start survive the prune and are not read. Integer timestamps have no such entries.
- Redis and SQLite themselves: connections, sessions, commits, the `IntegrityError` retry branches (not covered by the source's tests), and foreign keys. The embedding cache and the browsing history share one Redis database in the source. Here they are separate stores, so a header equal to a user id's key is not modelled.
- Authentication and token handling, and the response models of the routing layer. The routes return posts, not response objects, and a user arrives as a `User` value.
- `create_comment` and `get_all_comments_by_post_id` are used only by the comment routes. The model reads the comment table as given. `CommentsOfPost` is the filter the latter runs.
- The Base64 alphabet. `Base64OptionalEncode` takes the library encoder as a parameter.
- The feed's candidate order. `list(set)` order is left unspecified, as in the source. No tie-break is invented.
