/**
 * The post endpoints of app/routers/posts.py: the admin-only create and
 * delete, the single-post read that records a view, the similar-posts read,
 * the recent-posts listing and the personalised feed.
 *
 * Responses are the posts themselves; the routing layer's response models
 * are not part of this model.
 */
module PostsRouter {
  import opened Wrappers
  import opened Models
  import opened Pages
  import opened Crud
  import opened Common
  import opened Ml

  datatype PostsPaginated = PostsPaginated(posts: seq<Post>, page: int, totalPages: nat)

  function PageTooBig(): HttpError {
    HttpError(400, "Page number is too big")
  }

  /** An exception the routes do not catch (here: torch.cat of no embeddings). */
  function InternalServerError(): HttpError {
    HttpError(500, "Internal Server Error")
  }

  function Elems<T>(s: seq<T>): set<T> {
    set x | x in s
  }

  predicate NoDuplicates<T(==)>(s: seq<T>) {
    forall i, j :: 0 <= i < j < |s| ==> s[i] != s[j]
  }

  /**
   * add_new_post: a non-admin gets 403 and no post is created; an admin's
   * post is stored under a fresh id, which is returned.
   */
  method AddNewPost(db: Database, currentUser: User, header: string, photo: Option<Bytes>, text: string,
                    now: Timestamp)
    returns (r: Result<int, HttpError>)
    requires db.Valid()
    modifies db
    ensures db.Valid()
    ensures currentUser.role != Admin ==>
      r == Err(HttpError(403, "Only admins can add new posts")) && db.posts == old(db.posts)
    ensures currentUser.role == Admin ==>
      r.Ok? && GetPostById(old(db.posts), r.value).None? &&
      db.posts == old(db.posts) + [Post(r.value, currentUser.id, header, photo, text, now)]
    ensures db.users == old(db.users) && db.comments == old(db.comments)
  {
    if currentUser.role != Admin {
      return Err(HttpError(403, "Only admins can add new posts"));
    }
    var post := db.CreatePost(header, photo, text, currentUser, now);
    r := Ok(post.id);
  }

  /**
   * get_posts_for_last_week: without a page, the posts of the last week as
   * one page; with a page, that page of the WHOLE post table (the paged
   * query does not filter by date), or 400 past the last page.
   */
  function GetPostsForLastWeek(posts: seq<Post>, page: Option<int>, now: Timestamp)
    : (r: Result<PostsPaginated, HttpError>)
    requires page.Some? ==> page.value >= 1
    ensures page.None? ==>
      r.Ok? && r.value.page == 1 && r.value.totalPages == 1 &&
      forall p :: p in r.value.posts <==> p in posts && now - WEEK <= p.postedAt
    ensures page.Some? ==>
      (r.Err? <==> page.value > TotalPages(|posts|, PageSize())) &&
      (r.Err? ==> r.error == PageTooBig()) &&
      (r.Ok? ==>
        r.value.page == page.value && r.value.totalPages == TotalPages(|posts|, PageSize()) &&
        (page.value - 1) * PageSize() <= |posts| &&
        r.value.posts == posts[(page.value - 1) * PageSize() .. Min(page.value * PageSize(), |posts|)])
  {
    match page
    case None => Ok(PostsPaginated(AllPostsForLastWeek(posts, now), 1, 1))
    case Some(n) =>
      match GetPostsByPage(posts, n)
      case Err(_) => Err(PageTooBig())
      case Ok(onPage) => Ok(PostsPaginated(onPage.posts, n, onPage.totalPages))
  }

  // ------------------------------------------------------------------ feed

  /** The similar lists of the viewed posts, in order: what asyncio.gather returns. */
  function SimilarLists(viewed: seq<Post>, recent: seq<Post>, encode: string -> Embedding,
                        cosine: (Embedding, Embedding) -> real): (lists: seq<seq<Post>>)
    ensures |lists| == |viewed|
    ensures forall i :: 0 <= i < |viewed| ==> lists[i] == SimilarTo(viewed[i], recent, encode, cosine)
  {
    seq(|viewed|, i requires 0 <= i < |viewed| => SimilarTo(viewed[i], recent, encode, cosine))
  }

  lemma SimilarListsSnoc(viewed: seq<Post>, p: Post, recent: seq<Post>, encode: string -> Embedding,
                         cosine: (Embedding, Embedding) -> real)
    ensures SimilarLists(viewed + [p], recent, encode, cosine) ==
      SimilarLists(viewed, recent, encode, cosine) + [SimilarTo(p, recent, encode, cosine)]
  {
  }

  /** The headers looked up once the first `i` viewed posts have been gathered. */
  function GatheredKeys(viewed: seq<Post>, i: nat, recent: seq<Post>): set<string>
    requires i <= |viewed|
  {
    HeadersOfFirst(viewed, i) + if i == 0 then {} else Headers(recent)
  }

  /** set(itertools.chain(*lists)): every post of every list, once. */
  function ChainedSet(lists: seq<seq<Post>>): set<Post>
  {
    if lists == [] then {} else ChainedSet(lists[..|lists| - 1]) + Elems(lists[|lists| - 1])
  }

  lemma {:induction false} ChainedSetMembers(lists: seq<seq<Post>>, p: Post)
    ensures p in ChainedSet(lists) <==> exists i :: 0 <= i < |lists| && p in lists[i]
  {
    if lists != [] {
      var n := |lists| - 1;
      var init := lists[..n];
      ChainedSetMembers(init, p);
      if p in ChainedSet(lists) {
        if p in ChainedSet(init) {
          var i :| 0 <= i < |init| && p in init[i];
          assert lists[i] == init[i];
        } else {
          assert p in lists[n];
        }
      } else {
        forall i | 0 <= i < |lists| ensures p !in lists[i] {
          if i < n {
            assert init[i] == lists[i];
          }
        }
      }
    }
  }

  /** relevant_posts - set(recent_posts): what the feed may recommend. */
  function Recommendable(viewed: seq<Post>, recent: seq<Post>, encode: string -> Embedding,
                         cosine: (Embedding, Embedding) -> real): set<Post>
  {
    ChainedSet(SimilarLists(viewed, recent, encode, cosine)) - Elems(viewed)
  }

  /**
   * A post is recommendable exactly when the user has not just viewed it and
   * it is in the similar list of at least one viewed post; such a post is
   * then a post of the last week.
   */
  lemma RecommendableMembers(viewed: seq<Post>, recent: seq<Post>, encode: string -> Embedding,
                             cosine: (Embedding, Embedding) -> real, p: Post)
    ensures p in Recommendable(viewed, recent, encode, cosine) <==>
      p !in viewed && exists i :: 0 <= i < |viewed| && p in SimilarTo(viewed[i], recent, encode, cosine)
    ensures p in Recommendable(viewed, recent, encode, cosine) ==> p in recent
  {
    var lists := SimilarLists(viewed, recent, encode, cosine);
    ChainedSetMembers(lists, p);
    if p in Recommendable(viewed, recent, encode, cosine) {
      var i :| 0 <= i < |viewed| && p in SimilarTo(viewed[i], recent, encode, cosine);
      var scores := HeaderScores(encode, cosine, viewed[i], recent);
      SimilarRecentPostsSpec(recent, scores);
      var r := SimilarTo(viewed[i], recent, encode, cosine);
      var k :| 0 <= k < |r| && r[k] == p;
    }
  }

  /** list(some_set): the set's members in an order the language leaves open. */
  method ListOf(s: set<Post>) returns (xs: seq<Post>)
    ensures Elems(xs) == s
    ensures NoDuplicates(xs)
  {
    xs := [];
    var rest := s;
    while rest != {}
      invariant Elems(xs) + rest == s
      invariant Elems(xs) !! rest
      invariant NoDuplicates(xs)
      decreases |rest|
    {
      var x :| x in rest;
      xs := xs + [x];
      rest := rest - {x};
    }
  }

  /**
   * The pagination of get_feed: no page gives every candidate as page 1 of 1;
   * a page past TotalPages gives 400; any other page is the candidates'
   * slice at offset (page - 1) * page size.
   */
  function PaginateFeed(candidates: seq<Post>, page: Option<int>): (r: Result<PostsPaginated, HttpError>)
    requires page.Some? ==> page.value >= 1
    ensures page.None? ==> r == Ok(PostsPaginated(candidates, 1, 1))
    ensures page.Some? ==>
      (r.Err? <==> page.value > TotalPages(|candidates|, PageSize())) &&
      (r.Err? ==> r.error == PageTooBig()) &&
      (r.Ok? ==>
        r.value.page == page.value && r.value.totalPages == TotalPages(|candidates|, PageSize()) &&
        (page.value - 1) * PageSize() <= |candidates| &&
        r.value.posts == candidates[(page.value - 1) * PageSize() .. Min(page.value * PageSize(), |candidates|)])
  {
    match page
    case None => Ok(PostsPaginated(candidates, 1, 1))
    case Some(n) =>
      PageOfSpec(candidates, n, PageSize());
      match PageOf(candidates, n, PageSize())
      case None => Err(PageTooBig())
      case Some(slice) => Ok(PostsPaginated(slice, n, TotalPages(|candidates|, PageSize())))
  }

  /**
   * The asyncio.gather step of get_feed: the similar posts of each viewed
   * post, in order. It fails on the first viewed post when no post is from the
   * last week; the cache gains exactly the headers looked up.
   */
  method GatherSimilar(cache: EmbeddingCache, posts: seq<Post>, viewed: seq<Post>, now: Timestamp,
                       cosine: (Embedding, Embedding) -> real)
    returns (r: Result<seq<seq<Post>>, SimilarityError>)
    requires cache.Valid()
    modifies cache
    ensures cache.Valid()
    ensures var recent := AllPostsForLastWeek(posts, now);
      r == if viewed != [] && recent == [] then Err(NoRecentPosts)
           else Ok(SimilarLists(viewed, recent, cache.encode, cosine))
    ensures var recent := AllPostsForLastWeek(posts, now);
      cache.entries.Keys == old(cache.entries).Keys +
        if viewed == [] then {}
        else if recent == [] then {viewed[0].header}
        else Headers(viewed) + Headers(recent)
  {
    ghost var recent := AllPostsForLastWeek(posts, now);
    var gathered: seq<seq<Post>> := [];
    for i := 0 to |viewed|
      invariant cache.Valid()
      invariant gathered == SimilarLists(viewed[..i], recent, cache.encode, cosine)
      invariant i > 0 ==> recent != []
      invariant cache.entries.Keys == old(cache.entries).Keys + GatheredKeys(viewed, i, recent)
    {
      var next := GatherNext(cache, posts, viewed, i, gathered, now, cosine);
      if next.Err? {
        return Err(NoRecentPosts);
      }
      gathered := next.value;
    }
    assert viewed[..|viewed|] == viewed;
    r := Ok(gathered);
  }

  /** One task of the gather: the similar posts of viewed post `i`, appended to those before it. */
  method GatherNext(cache: EmbeddingCache, posts: seq<Post>, viewed: seq<Post>, i: nat, gathered: seq<seq<Post>>,
                    now: Timestamp, cosine: (Embedding, Embedding) -> real)
    returns (r: Result<seq<seq<Post>>, SimilarityError>)
    requires i < |viewed| && cache.Valid()
    requires gathered == SimilarLists(viewed[..i], AllPostsForLastWeek(posts, now), cache.encode, cosine)
    modifies cache
    ensures cache.Valid()
    ensures var recent := AllPostsForLastWeek(posts, now);
      cache.entries.Keys == old(cache.entries).Keys + {viewed[i].header} + Headers(recent) &&
      r == if recent == [] then Err(NoRecentPosts)
           else Ok(SimilarLists(viewed[..i + 1], recent, cache.encode, cosine))
  {
    ghost var recent := AllPostsForLastWeek(posts, now);
    var similar := FindSimilarRecentPosts(cache, posts, viewed[i], now, cosine);
    if similar.Err? {
      return Err(NoRecentPosts);
    }
    assert viewed[..i + 1] == viewed[..i] + [viewed[i]];
    SimilarListsSnoc(viewed[..i], viewed[i], recent, cache.encode, cosine);
    r := Ok(gathered + [similar.value]);
  }

  /**
   * get_feed: reads the user's recently viewed posts (pruning the history
   * when `prune` holds), unites the similar posts of each, removes the viewed
   * ones and paginates. The candidate list has no duplicates and holds
   * exactly the recommendable posts, in an unspecified order; the cache
   * stays consistent and gains exactly the headers looked up: those of the
   * viewed posts and of the posts of the last week. When some post was viewed
   * but no post is from the last week, the similarity step fails on the first
   * viewed post, and the request with it.
   */
  method GetFeed(db: Database, history: HistoryStore, cache: EmbeddingCache, currentUser: User,
                 page: Option<int>, now: Timestamp, prune: bool, cosine: (Embedding, Embedding) -> real)
    returns (r: Result<PostsPaginated, HttpError>, ghost candidates: seq<Post>)
    requires page.Some? ==> page.value >= 1
    requires cache.Valid()
    modifies history, cache
    ensures cache.Valid()
    ensures var viewed := RecentlyViewed(old(history.Views(currentUser.id)), db.posts, now);
      var recent := AllPostsForLastWeek(db.posts, now);
      if viewed != [] && recent == [] then r == Err(InternalServerError())
      else
        NoDuplicates(candidates) &&
        Elems(candidates) == Recommendable(viewed, recent, cache.encode, cosine) &&
        r == PaginateFeed(candidates, page)
    ensures var viewed := RecentlyViewed(old(history.Views(currentUser.id)), db.posts, now);
      var recent := AllPostsForLastWeek(db.posts, now);
      cache.entries.Keys == old(cache.entries).Keys +
        if viewed == [] then {}
        else if recent == [] then {viewed[0].header}
        else Headers(viewed) + Headers(recent)
    ensures !prune ==> history.zsets == old(history.zsets)
    ensures prune ==>
      var kept := PrunedAtMost(old(history.Views(currentUser.id)), now - WEEK - 1);
      history.zsets == if kept == map[] then old(history.zsets) - {currentUser.id}
                       else old(history.zsets)[currentUser.id := kept]
  {
    candidates := [];
    var viewed := history.GetRecentlyViewedPostsForLastWeek(db.posts, currentUser.id, now, prune);
    var lists := GatherSimilar(cache, db.posts, viewed, now, cosine);
    if lists.Err? {
      return Err(InternalServerError()), [];
    }
    var gathered := lists.value;
    var relevant := ChainedSet(gathered);
    var toRecommend := ListOf(relevant - Elems(viewed));
    candidates := toRecommend;
    r := PaginateFeed(toRecommend, page);
  }

  // ------------------------------------------------------ single post routes

  /**
   * remove_existing_post: the role check comes first, so a non-admin gets 403
   * even for a missing id; an admin gets 404 for a missing id; in both cases
   * nothing is removed. Otherwise exactly that post is deleted.
   */
  method RemoveExistingPost(db: Database, currentUser: User, postId: int) returns (r: Result<(), HttpError>)
    requires db.Valid()
    modifies db
    ensures db.Valid()
    ensures currentUser.role != Admin ==>
      r == Err(HttpError(403, "Only admins can remove posts")) && db.posts == old(db.posts)
    ensures currentUser.role == Admin && GetPostById(old(db.posts), postId).None? ==>
      r == Err(PostNotFoundError(postId)) && db.posts == old(db.posts)
    ensures currentUser.role == Admin && GetPostById(old(db.posts), postId).Some? ==>
      r == Ok(()) && db.posts == WithoutPost(old(db.posts), postId)
    ensures db.users == old(db.users) && db.comments == old(db.comments)
  {
    if currentUser.role != Admin {
      return Err(HttpError(403, "Only admins can remove posts"));
    }
    var removed := db.RemovePostById(postId);
    if removed.Err? {
      return Err(PostNotFoundError(postId));
    }
    r := Ok(());
  }

  /**
   * get_single_post: the post, or 404; a view is recorded in the reader's
   * history, stamped `now`, only after the post was found.
   */
  method GetSinglePost(db: Database, history: HistoryStore, currentUser: User, postId: int, now: Timestamp)
    returns (r: Result<Post, HttpError>)
    modifies history
    ensures r == GetPostOrThrowNotFoundException(db.posts, postId)
    ensures r.Ok? <==> GetPostById(db.posts, postId).Some?
    ensures r.Ok? ==> r.value in db.posts && r.value.id == postId
    ensures r.Err? ==> r.error == PostNotFoundError(postId) && history.zsets == old(history.zsets)
    ensures r.Ok? ==>
      history.zsets == old(history.zsets)[currentUser.id := old(history.Views(currentUser.id))[postId := now]]
  {
    r := GetPostOrThrowNotFoundException(db.posts, postId);
    if r.Ok? {
      history.UpdateBrowsingHistory(currentUser.id, now, r.value.id);
    }
  }

  /**
   * get_similar_posts: 404 for a missing id, leaving the cache as it was;
   * otherwise the similar posts of that post among the posts of the week,
   * with the cache gaining exactly the headers looked up.
   */
  method GetSimilarPosts(db: Database, cache: EmbeddingCache, postId: int, now: Timestamp,
                         cosine: (Embedding, Embedding) -> real)
    returns (r: Result<seq<Post>, HttpError>)
    requires cache.Valid()
    modifies cache
    ensures cache.Valid()
    ensures var recent := AllPostsForLastWeek(db.posts, now);
      match GetPostOrThrowNotFoundException(db.posts, postId)
      case Err(e) => r == Err(e) && cache.entries == old(cache.entries)
      case Ok(post) =>
        (r == if recent == [] then Err(InternalServerError()) else Ok(SimilarTo(post, recent, cache.encode, cosine))) &&
        cache.entries.Keys == old(cache.entries).Keys + {post.header} + Headers(recent)
  {
    var found := GetPostOrThrowNotFoundException(db.posts, postId);
    if found.Err? {
      return Err(found.error);
    }
    var similar := FindSimilarRecentPosts(cache, db.posts, found.value, now, cosine);
    r := if similar.Err? then Err(InternalServerError()) else Ok(similar.value);
  }
}
