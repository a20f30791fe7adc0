/**
 * The stored entities of the news service (users, posts, comments) and the
 * configuration constants the recommendation path depends on.
 */
module Models {
  import opened Wrappers

  type Bytes = seq<bv8>

  /** Seconds since the epoch; the service's clock readings are whole seconds here. */
  type Timestamp = int

  /** The length of one week, the window of the feed and of "recent" posts. */
  const WEEK: int := 604800

  /** Items on one page of any paginated listing. */
  const PAGE_SIZE: nat := 2

  /** How many similar posts are returned after the skipped first one. */
  const K_NEAREST_NEIGHBOURS: nat := 3

  /** A candidate must score strictly above this to count as similar. */
  const POSTS_SIMILARITY_THRESHOLD: real := 0.4

  datatype UserRole = Client | Admin

  datatype User = User(
    id: int,
    username: string,
    fullName: Option<string>,
    hashedPassword: string,
    role: UserRole)

  datatype Post = Post(
    id: int,
    authorId: int,
    header: string,
    photo: Option<Bytes>,
    text: string,
    postedAt: Timestamp)

  datatype Comment = Comment(
    id: int,
    authorId: int,
    postId: int,
    text: string,
    postedAt: Timestamp)

  /** The distinct exceptions raised by the store layer. */
  datatype CrudError = UserAlreadyExists | PostNotFound | InvalidPageNum

  /** An error answer of the HTTP layer: a status code and its detail text. */
  datatype HttpError = HttpError(status: int, detail: string)
}
