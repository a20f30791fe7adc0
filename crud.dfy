/**
 * The store layer of app/database/crud.py. The relational tables (users,
 * posts, comments) live in class Database, the per-user browsing history
 * (a Redis sorted set per user) in class HistoryStore. Queries that only read
 * a table are functions over a snapshot of it; operations that write are
 * methods.
 *
 * Tables are kept in rowid order. A new row gets SQLite's rowid choice for an
 * INTEGER PRIMARY KEY without AUTOINCREMENT: one more than the largest rowid in
 * the table, or 1 for an empty table.
 */
module Crud {
  import opened Wrappers
  import opened Models
  import opened Pages

  // ---------------------------------------------------------------- tables

  predicate PostIdsIncreasing(posts: seq<Post>) {
    forall i, j :: 0 <= i < j < |posts| ==> posts[i].id < posts[j].id
  }

  predicate PostTableValid(posts: seq<Post>) {
    PostIdsIncreasing(posts) && forall i :: 0 <= i < |posts| ==> posts[i].id >= 1
  }

  predicate UserTableValid(users: seq<User>) {
    (forall i, j :: 0 <= i < j < |users| ==> users[i].id < users[j].id) &&
    (forall i, j :: 0 <= i < j < |users| ==> users[i].username != users[j].username) &&
    (forall i :: 0 <= i < |users| ==> users[i].id >= 1)
  }

  /** The rowid SQLite assigns to the next inserted post. */
  function NextPostId(posts: seq<Post>): (id: int)
    requires PostTableValid(posts)
    ensures id >= 1
    ensures forall i :: 0 <= i < |posts| ==> posts[i].id < id
  {
    if posts == [] then 1 else posts[|posts| - 1].id + 1
  }

  /** The rowid SQLite assigns to the next inserted user. */
  function NextUserId(users: seq<User>): (id: int)
    requires UserTableValid(users)
    ensures id >= 1
    ensures forall i :: 0 <= i < |users| ==> users[i].id < id
  {
    if users == [] then 1 else users[|users| - 1].id + 1
  }

  // --------------------------------------------------------------- lookups

  /** get_user_by_username: the first user with that username, if any. */
  function GetUserByUsername(users: seq<User>, username: string): (r: Option<User>)
    ensures r.Some? ==> r.value in users && r.value.username == username
    ensures r.None? ==> forall u :: u in users ==> u.username != username
  {
    if users == [] then None
    else if users[0].username == username then Some(users[0])
    else GetUserByUsername(users[1..], username)
  }

  /** get_post_by_id: the post with that id, if any. */
  function GetPostById(posts: seq<Post>, postId: int): (r: Option<Post>)
    ensures r.Some? ==> r.value in posts && r.value.id == postId
    ensures r.None? ==> forall p :: p in posts ==> p.id != postId
  {
    if posts == [] then None
    else if posts[0].id == postId then Some(posts[0])
    else GetPostById(posts[1..], postId)
  }

  /** The table with every row of the given id deleted, the rest in order. */
  function WithoutPost(posts: seq<Post>, postId: int): (r: seq<Post>)
    ensures forall p :: p in r <==> p in posts && p.id != postId
  {
    if posts == [] then []
    else if posts[0].id == postId then WithoutPost(posts[1..], postId)
    else [posts[0]] + WithoutPost(posts[1..], postId)
  }

  /** Deleting rows keeps the table's ids increasing and positive. */
  lemma {:induction false} WithoutPostValid(posts: seq<Post>, postId: int)
    requires PostTableValid(posts)
    ensures PostTableValid(WithoutPost(posts, postId))
  {
    if posts != [] {
      assert PostTableValid(posts[1..]);
      WithoutPostValid(posts[1..], postId);
      var rest := WithoutPost(posts[1..], postId);
      if posts[0].id != postId {
        forall k | 0 <= k < |rest| ensures posts[0].id < rest[k].id {
          assert rest[k] in posts[1..];
        }
        PrependValid(posts[0], rest);
      }
    }
  }

  lemma PrependValid(p: Post, rest: seq<Post>)
    requires PostTableValid(rest) && p.id >= 1
    requires forall k :: 0 <= k < |rest| ==> p.id < rest[k].id
    ensures PostTableValid([p] + rest)
  {
    var r := [p] + rest;
    forall i, j | 0 <= i < j < |r| ensures r[i].id < r[j].id {
      if i > 0 {
        assert r[i] == rest[i - 1] && r[j] == rest[j - 1];
      }
    }
  }

  /** Deleting a present id removes exactly one row. */
  lemma {:induction false} WithoutPostRemovesOne(posts: seq<Post>, postId: int)
    requires PostTableValid(posts)
    requires GetPostById(posts, postId).Some?
    ensures |WithoutPost(posts, postId)| == |posts| - 1
  {
    if posts[0].id == postId {
      WithoutAbsent(posts[1..], postId);
    } else {
      WithoutPostRemovesOne(posts[1..], postId);
    }
  }

  /** Deleting an absent id leaves the table as it was. */
  lemma {:induction false} WithoutAbsent(posts: seq<Post>, postId: int)
    requires PostTableValid(posts)
    requires forall i :: 0 <= i < |posts| ==> posts[i].id != postId
    ensures WithoutPost(posts, postId) == posts
  {
    if posts != [] {
      WithoutAbsent(posts[1..], postId);
    }
  }

  // ------------------------------------------------------- post listings

  /** get_all_posts_after_date: the posts dated at or after `startDate`, in table order. */
  function AllPostsAfterDate(posts: seq<Post>, startDate: Timestamp): (r: seq<Post>)
    ensures forall p :: p in r <==> p in posts && p.postedAt >= startDate
    ensures |r| <= |posts|
  {
    if posts == [] then []
    else if posts[0].postedAt >= startDate then [posts[0]] + AllPostsAfterDate(posts[1..], startDate)
    else AllPostsAfterDate(posts[1..], startDate)
  }

  /** The listing keeps the table's id order. */
  lemma {:induction false} AllPostsAfterDateOrdered(posts: seq<Post>, startDate: Timestamp)
    requires PostIdsIncreasing(posts)
    ensures PostIdsIncreasing(AllPostsAfterDate(posts, startDate))
  {
    if posts != [] {
      AllPostsAfterDateOrdered(posts[1..], startDate);
      var rest := AllPostsAfterDate(posts[1..], startDate);
      forall k | 0 <= k < |rest| ensures posts[0].id < rest[k].id {
        assert rest[k] in posts[1..];
      }
    }
  }

  /** get_all_posts_for_last_week: the posts of the week before `now`. */
  function AllPostsForLastWeek(posts: seq<Post>, now: Timestamp): (r: seq<Post>)
    ensures forall p :: p in r <==> p in posts && now - WEEK <= p.postedAt
  {
    AllPostsAfterDate(posts, now - WEEK)
  }

  datatype PostsOnPage = PostsOnPage(posts: seq<Post>, totalPages: nat)

  /**
   * get_posts_by_page: page `page` of the whole post table (not only the last
   * week), or InvalidPageNum when it is past the last page.
   */
  function GetPostsByPage(posts: seq<Post>, page: int): (r: Result<PostsOnPage, CrudError>)
    requires page >= 1
    ensures r.Err? <==> page > TotalPages(|posts|, PageSize())
    ensures r.Err? ==> r.error == InvalidPageNum
    ensures r.Ok? ==>
      r.value.totalPages == TotalPages(|posts|, PageSize()) &&
      (page - 1) * PageSize() <= |posts| &&
      r.value.posts == posts[(page - 1) * PageSize() .. Min(page * PageSize(), |posts|)]
  {
    var totalPages := TotalPages(|posts|, PageSize());
    PageOfSpec(posts, page, PageSize());
    match PageOf(posts, page, PageSize())
    case None => Err(InvalidPageNum)
    case Some(slice) => Ok(PostsOnPage(slice, totalPages))
  }

  /** Three posts with two to a page: page 2 holds the third alone, of two pages. */
  lemma GetPostsByPageExample(p1: Post, p2: Post, p3: Post)
    ensures GetPostsByPage([p1, p2, p3], 2) == Ok(PostsOnPage([p3], 2))
    ensures GetPostsByPage([p1, p2, p3], 123) == Err(InvalidPageNum)
  {
    assert TotalPages(3, 2) == 2;
    var w := Window([p1, p2, p3], 2, 2);
    assert w == [p3];
  }

  // ---------------------------------------------------------- comments

  /** The comments of one post, in table order. */
  function CommentsOfPost(comments: seq<Comment>, postId: int): (r: seq<Comment>)
    ensures |r| <= |comments|
    ensures forall c :: c in r <==> c in comments && c.postId == postId
  {
    if comments == [] then []
    else if comments[0].postId == postId then [comments[0]] + CommentsOfPost(comments[1..], postId)
    else CommentsOfPost(comments[1..], postId)
  }

  datatype CommentsOnPage = CommentsOnPage(comments: seq<Comment>, totalPages: nat)

  /**
   * get_comments_by_post_id_and_page as written: the page count and its check
   * use the post's own comments, but the slice is taken over the whole comment
   * table, whatever post each comment belongs to.
   */
  function GetCommentsByPostIdAndPageAsWritten(comments: seq<Comment>, postId: int, page: int)
    : (r: Result<CommentsOnPage, CrudError>)
    requires page >= 1
    ensures r.Err? <==> page > TotalPages(|CommentsOfPost(comments, postId)|, PageSize())
    ensures r.Err? ==> r.error == InvalidPageNum
    ensures r.Ok? ==>
      r.value.totalPages == TotalPages(|CommentsOfPost(comments, postId)|, PageSize()) &&
      (page - 1) * PageSize() <= |comments| &&
      r.value.comments == comments[(page - 1) * PageSize() .. Min(page * PageSize(), |comments|)]
  {
    var totalPages := TotalPages(|CommentsOfPost(comments, postId)|, PageSize());
    PageOfSpec(CommentsOfPost(comments, postId), page, PageSize());
    if page > totalPages then Err(InvalidPageNum)
    else Ok(CommentsOnPage(Window(comments, (page - 1) * PageSize(), PageSize()), totalPages))
  }

  /** A comment of post 1 is served on the first comment page of post 2. */
  lemma CommentsPageLeaksOtherPosts()
    ensures var c1 := Comment(1, 1, 1, "on post 1", 0);
      var c2 := Comment(2, 1, 2, "on post 2", 0);
      var r := GetCommentsByPostIdAndPageAsWritten([c1, c2], 2, 1);
      r.Ok? && c1 in r.value.comments && c1.postId != 2 &&
      GetCommentsByPostIdAndPage([c1, c2], 2, 1) == Ok(CommentsOnPage([c2], 1))
  {
    var c1 := Comment(1, 1, 1, "on post 1", 0);
    var c2 := Comment(2, 1, 2, "on post 2", 0);
    assert CommentsOfPost([c2], 2) == [c2];
    assert CommentsOfPost([c1, c2], 2) == [c2];
    var w := Window([c1, c2], 0, PageSize());
    assert w[0] == c1;
  }

  /**
   * get_comments_by_post_id_and_page as evidently intended: pages are counted
   * and sliced over the post's own comments.
   */
  function GetCommentsByPostIdAndPage(comments: seq<Comment>, postId: int, page: int)
    : (r: Result<CommentsOnPage, CrudError>)
    requires page >= 1
    ensures r.Err? <==> page > TotalPages(|CommentsOfPost(comments, postId)|, PageSize())
    ensures r.Err? ==> r.error == InvalidPageNum
    ensures r.Ok? ==>
      var own := CommentsOfPost(comments, postId);
      r.value.totalPages == TotalPages(|own|, PageSize()) &&
      (page - 1) * PageSize() <= |own| &&
      r.value.comments == own[(page - 1) * PageSize() .. Min(page * PageSize(), |own|)]
  {
    var own := CommentsOfPost(comments, postId);
    var totalPages := TotalPages(|own|, PageSize());
    PageOfSpec(own, page, PageSize());
    match PageOf(own, page, PageSize())
    case None => Err(InvalidPageNum)
    case Some(slice) => Ok(CommentsOnPage(slice, totalPages))
  }

  /** Every comment on a page of the corrected query belongs to the requested post. */
  lemma CommentsPageOwnPostOnly(comments: seq<Comment>, postId: int, page: int)
    requires page >= 1
    ensures var r := GetCommentsByPostIdAndPage(comments, postId, page);
      r.Ok? ==> forall c :: c in r.value.comments ==> c in comments && c.postId == postId
  {
    var r := GetCommentsByPostIdAndPage(comments, postId, page);
    if r.Ok? {
      var own := CommentsOfPost(comments, postId);
      forall c | c in r.value.comments ensures c in own {
        var k :| 0 <= k < |r.value.comments| && r.value.comments[k] == c;
        assert c == own[(page - 1) * PageSize() + k];
      }
    }
  }

  // ------------------------------------------------------ relational store

  class Database {
    var users: seq<User>
    var posts: seq<Post>
    var comments: seq<Comment>

    ghost predicate Valid()
      reads this
    {
      UserTableValid(users) && PostTableValid(posts)
    }

    constructor ()
      ensures Valid()
      ensures users == [] && posts == [] && comments == []
    {
      users, posts, comments := [], [], [];
    }

    /**
     * create_user: refuses a taken username; otherwise adds exactly one user
     * with the given role, Client when the caller gives none.
     */
    method CreateUser(username: string, fullName: Option<string>, hashedPassword: string,
                      role: UserRole := Client)
      returns (r: Result<User, CrudError>)
      requires Valid()
      modifies this
      ensures Valid()
      ensures GetUserByUsername(old(users), username).Some? ==>
        r == Err(UserAlreadyExists) && users == old(users)
      ensures GetUserByUsername(old(users), username).None? ==>
        r == Ok(User(NextUserId(old(users)), username, fullName, hashedPassword, role)) &&
        users == old(users) + [r.value]
      ensures posts == old(posts) && comments == old(comments)
    {
      if GetUserByUsername(users, username).Some? {
        return Err(UserAlreadyExists);
      }
      var user := User(NextUserId(users), username, fullName, hashedPassword, role);
      users := users + [user];
      r := Ok(user);
    }

    /** create_admin: create_user with the Admin role. */
    method CreateAdmin(username: string, fullName: Option<string>, hashedPassword: string)
      returns (r: Result<User, CrudError>)
      requires Valid()
      modifies this
      ensures Valid()
      ensures GetUserByUsername(old(users), username).Some? ==>
        r == Err(UserAlreadyExists) && users == old(users)
      ensures GetUserByUsername(old(users), username).None? ==>
        r == Ok(User(NextUserId(old(users)), username, fullName, hashedPassword, Admin)) &&
        users == old(users) + [r.value]
      ensures posts == old(posts) && comments == old(comments)
    {
      r := CreateUser(username, fullName, hashedPassword, Admin);
    }

    /** create_post: appends one post, dated `now`, under a fresh id. */
    method CreatePost(header: string, photo: Option<Bytes>, text: string, author: User, now: Timestamp)
      returns (post: Post)
      requires Valid()
      modifies this
      ensures Valid()
      ensures post == Post(NextPostId(old(posts)), author.id, header, photo, text, now)
      ensures GetPostById(old(posts), post.id).None?
      ensures posts == old(posts) + [post]
      ensures users == old(users) && comments == old(comments)
    {
      post := Post(NextPostId(posts), author.id, header, photo, text, now);
      posts := posts + [post];
    }

    /**
     * remove_post_by_id: PostNotFound, with nothing changed, for an absent id;
     * otherwise exactly that post is deleted.
     */
    method RemovePostById(postId: int) returns (r: Result<(), CrudError>)
      requires Valid()
      modifies this
      ensures Valid()
      ensures r.Err? <==> GetPostById(old(posts), postId).None?
      ensures r.Err? ==> r.error == PostNotFound && posts == old(posts)
      ensures r.Ok? ==> posts == WithoutPost(old(posts), postId) && |posts| == |old(posts)| - 1
      ensures users == old(users) && comments == old(comments)
    {
      if GetPostById(posts, postId).None? {
        return Err(PostNotFound);
      }
      WithoutPostRemovesOne(posts, postId);
      WithoutPostValid(posts, postId);
      posts := WithoutPost(posts, postId);
      r := Ok(());
    }
  }

  // ------------------------------------------------------ browsing history

  /** The post ids of a history viewed at or after `start` (ZRANGEBYSCORE min=start). */
  function ViewedSince(views: map<int, Timestamp>, start: Timestamp): set<int>
  {
    set postId | postId in views && views[postId] >= start
  }

  /** The history after ZREMRANGEBYSCORE max=maxScore: entries scored at most maxScore go. */
  function PrunedAtMost(views: map<int, Timestamp>, maxScore: Timestamp): (kept: map<int, Timestamp>)
    ensures forall postId :: postId in kept <==> postId in views && views[postId] > maxScore
    ensures forall postId :: postId in kept ==> kept[postId] == views[postId]
  {
    map postId | postId in views && views[postId] > maxScore :: views[postId]
  }

  /** The prune removes only entries older than the window, so the window reads the same. */
  lemma PruneKeepsWindow(views: map<int, Timestamp>, start: Timestamp)
    ensures ViewedSince(PrunedAtMost(views, start - 1), start) == ViewedSince(views, start)
    ensures forall postId :: postId in views && postId !in PrunedAtMost(views, start - 1) ==>
      views[postId] < start
  {
  }

  /** The posts of the table whose ids are in `ids`, in table order (Post.id.in_(ids)). */
  function PostsWithIds(posts: seq<Post>, ids: set<int>): (r: seq<Post>)
    ensures forall p :: p in r <==> p in posts && p.id in ids
  {
    if posts == [] then []
    else if posts[0].id in ids then [posts[0]] + PostsWithIds(posts[1..], ids)
    else PostsWithIds(posts[1..], ids)
  }

  /** The posts a history has viewed in the week before `now` that still exist. */
  function RecentlyViewed(views: map<int, Timestamp>, posts: seq<Post>, now: Timestamp): (r: seq<Post>)
    ensures forall p :: p in r <==> p in posts && p.id in views && views[p.id] >= now - WEEK
  {
    PostsWithIds(posts, ViewedSince(views, now - WEEK))
  }

  class HistoryStore {
    /** One sorted set per user id: post id -> timestamp of the last view. */
    var zsets: map<int, map<int, Timestamp>>

    constructor ()
      ensures zsets == map[]
    {
      zsets := map[];
    }

    /** The history of one user; an absent key reads as an empty set, as in Redis. */
    function Views(userId: int): map<int, Timestamp>
      reads this
    {
      if userId in zsets then zsets[userId] else map[]
    }

    /**
     * update_browsing_history: ZADD sets the post's score in this user's set
     * to the current timestamp, overwriting an earlier view of the same post;
     * other users' sets are untouched.
     */
    method UpdateBrowsingHistory(userId: int, currentTimestamp: Timestamp, postId: int)
      modifies this
      ensures zsets == old(zsets)[userId := old(Views(userId))[postId := currentTimestamp]]
      ensures Views(userId)[postId] == currentTimestamp
      ensures forall other :: other != userId ==> Views(other) == old(Views(other))
    {
      zsets := zsets[userId := Views(userId)[postId := currentTimestamp]];
    }

    /**
     * get_recently_viewed_posts_for_last_week: when `prune` (the one-in-five
     * draw) holds, the entries scored at most a week ago minus one second are
     * removed first (Redis deletes a set that becomes empty); then the posts
     * viewed within the week are read from the table. The answer is the same
     * whether or not the prune ran.
     */
    method GetRecentlyViewedPostsForLastWeek(posts: seq<Post>, userId: int, currentTimestamp: Timestamp, prune: bool)
      returns (r: seq<Post>)
      modifies this
      ensures r == RecentlyViewed(old(Views(userId)), posts, currentTimestamp)
      ensures !prune ==> zsets == old(zsets)
      ensures prune ==>
        var kept := PrunedAtMost(old(Views(userId)), currentTimestamp - WEEK - 1);
        zsets == if kept == map[] then old(zsets) - {userId} else old(zsets)[userId := kept]
    {
      var start := currentTimestamp - WEEK;
      if prune {
        var kept := PrunedAtMost(Views(userId), start - 1);
        PruneKeepsWindow(Views(userId), start);
        zsets := if kept == map[] then zsets - {userId} else zsets[userId := kept];
      }
      r := PostsWithIds(posts, ViewedSince(Views(userId), start));
    }
  }
}
