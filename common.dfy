/**
 * The helpers of app/utils/common.py that sit on top of the store layer:
 * optional Base64 encoding of a photo and the post lookup that answers 404.
 * The page arithmetic of the same file is module Pages.
 */
module Common {
  import opened Wrappers
  import opened Models
  import Crud

  function DigitChar(d: nat): char
    requires d < 10
  {
    "0123456789"[d]
  }

  function NatToDecimal(n: nat): string
    decreases n
  {
    if n < 10 then [DigitChar(n)] else NatToDecimal(n / 10) + [DigitChar(n % 10)]
  }

  /** Python's str() of an int. */
  function IntToDecimal(i: int): string
  {
    if i < 0 then "-" + NatToDecimal(-i) else NatToDecimal(i)
  }

  /** The 404 answer for a post id that is not in the table. */
  function PostNotFoundError(postId: int): (e: HttpError)
    ensures e.status == 404
  {
    HttpError(404, "Post with id = " + IntToDecimal(postId) + " was not found")
  }

  /**
   * base64_optional_encode: no photo stays no photo, a photo (even an empty
   * one) is Base64-encoded. The encoder is the library's and is a parameter.
   */
  function Base64OptionalEncode(value: Option<Bytes>, b64encode: Bytes -> Bytes): (r: Option<Bytes>)
    ensures r.None? <==> value.None?
    ensures value.Some? ==> r.value == b64encode(value.value)
  {
    match value
    case None => None
    case Some(bytes) => Some(b64encode(bytes))
  }

  /**
   * get_post_or_throw_not_found_exception: the post with that id, or the 404
   * answer naming the id when the table has none.
   */
  function GetPostOrThrowNotFoundException(posts: seq<Post>, postId: int): (r: Result<Post, HttpError>)
    ensures r.Ok? ==> r.value in posts && r.value.id == postId
    ensures r.Err? ==> (forall p :: p in posts ==> p.id != postId) && r.error == PostNotFoundError(postId)
  {
    match Crud.GetPostById(posts, postId)
    case Some(post) => Ok(post)
    case None => Err(PostNotFoundError(postId))
  }

  /** The not-found answer of the service's tests: id 123 gives the text they expect. */
  lemma NotFoundMessageExample()
    ensures PostNotFoundError(123).detail == "Post with id = 123 was not found"
  {
    assert NatToDecimal(123) == "123" by {
      assert NatToDecimal(1) == "1";
      assert NatToDecimal(12) == "12";
    }
  }
}
