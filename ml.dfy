/**
 * The recommendation core of app/utils/ml.py: the embedding cache in front of
 * the sentence encoder, and the selection of the posts most similar to a
 * given one among the posts of the last week.
 *
 * The encoder and the cosine similarity are opaque deterministic functions:
 * the encoder is fixed when the cache is built, the cosine is a parameter.
 */
module Ml {
  import opened Wrappers
  import opened Models
  import opened Pages
  import Crud

  type Embedding = seq<real>

  // ------------------------------------------------------- embedding cache

  /** The key-value store of embeddings, keyed by the exact header text. */
  class EmbeddingCache {
    const encode: string -> Embedding
    var entries: map<string, Embedding>
    /** How often the encoder has run, to tell a hit from a miss. */
    ghost var encodeCalls: nat

    /** Every stored embedding is the encoding of its own key. */
    ghost predicate Valid()
      reads this
    {
      forall header :: header in entries ==> entries[header] == encode(header)
    }

    constructor (encode: string -> Embedding)
      ensures Valid()
      ensures this.encode == encode && entries == map[] && encodeCalls == 0
    {
      this.encode := encode;
      entries := map[];
      encodeCalls := 0;
    }

    /**
     * get_or_calculate_embedding_of_header: a hit returns the stored value and
     * does not run the encoder; a miss runs it once, stores its result under
     * exactly `header` and returns it. No other key is touched.
     */
    method GetOrCalculateEmbeddingOfHeader(header: string) returns (e: Embedding)
      requires Valid()
      modifies this
      ensures Valid()
      ensures e == encode(header)
      ensures header in old(entries) ==>
        e == old(entries)[header] && entries == old(entries) && encodeCalls == old(encodeCalls)
      ensures header !in old(entries) ==>
        entries == old(entries)[header := e] && encodeCalls == old(encodeCalls) + 1
    {
      if header in entries {
        return entries[header];
      }
      e := encode(header);
      encodeCalls := encodeCalls + 1;
      entries := entries[header := e];
    }
  }

  /** A second lookup of the same header returns the first answer and changes nothing. */
  method LookupTwice(cache: EmbeddingCache, header: string) returns (first: Embedding, second: Embedding)
    requires cache.Valid()
    modifies cache
    ensures first == second
    ensures header in cache.entries && cache.entries == old(cache.entries)[header := first]
    ensures cache.encodeCalls <= old(cache.encodeCalls) + 1
  {
    first := cache.GetOrCalculateEmbeddingOfHeader(header);
    ghost var between := cache.entries;
    ghost var callsBetween := cache.encodeCalls;
    second := cache.GetOrCalculateEmbeddingOfHeader(header);
    assert cache.entries == between && cache.encodeCalls == callsBetween;
  }

  // ------------------------------------------------- similar-post selection

  /** A recent post with its similarity score and its position among the recent posts. */
  datatype Scored = Scored(post: Post, score: real, pos: nat)

  /** `a` comes before `b` in a descending stable sort. */
  predicate Before(a: Scored, b: Scored) {
    a.score > b.score || (a.score == b.score && a.pos < b.pos)
  }

  /** Scores never increase, and equal scores keep their original order. */
  predicate Ranked(s: seq<Scored>) {
    forall i, j :: 0 <= i < j < |s| ==> Before(s[i], s[j])
  }

  predicate PosIncreasing(s: seq<Scored>) {
    forall i, j :: 0 <= i < j < |s| ==> s[i].pos < s[j].pos
  }

  /** post2score: each recent post paired with its score, by position. */
  function Tag(recent: seq<Post>, scores: seq<real>): (t: seq<Scored>)
    requires |scores| == |recent|
    ensures |t| == |recent|
    ensures forall i :: 0 <= i < |t| ==> t[i] == Scored(recent[i], scores[i], i)
  {
    seq(|recent|, i requires 0 <= i < |recent| => Scored(recent[i], scores[i], i))
  }

  /** filter(...): the scored posts above the similarity threshold, in order. */
  function AboveThreshold(s: seq<Scored>): seq<Scored>
  {
    if s == [] then []
    else if s[0].score > POSTS_SIMILARITY_THRESHOLD then [s[0]] + AboveThreshold(s[1..])
    else AboveThreshold(s[1..])
  }

  /** The filter keeps a scored post exactly when its score is above the threshold. */
  lemma {:induction false} AboveThresholdMembers(s: seq<Scored>)
    ensures forall x :: x in AboveThreshold(s) <==> x in s && x.score > POSTS_SIMILARITY_THRESHOLD
  {
    if s != [] {
      AboveThresholdMembers(s[1..]);
      assert s == [s[0]] + s[1..];
    }
  }

  lemma {:induction false} AboveThresholdKeepsOrder(s: seq<Scored>)
    requires PosIncreasing(s)
    ensures PosIncreasing(AboveThreshold(s))
  {
    if s != [] {
      AboveThresholdKeepsOrder(s[1..]);
      AboveThresholdMembers(s[1..]);
      var rest := AboveThreshold(s[1..]);
      if s[0].score > POSTS_SIMILARITY_THRESHOLD {
        forall k | 0 <= k < |rest| ensures s[0].pos < rest[k].pos {
          assert rest[k] in s[1..];
        }
        var r := [s[0]] + rest;
        forall i, j | 0 <= i < j < |r| ensures r[i].pos < r[j].pos {
          if i > 0 {
            assert r[i] == rest[i - 1] && r[j] == rest[j - 1];
          }
        }
      }
    }
  }

  /** Places x after every element scored at least as high, before the first lower one. */
  function Insert(x: Scored, s: seq<Scored>): seq<Scored>
  {
    if s == [] then [x]
    else if s[0].score >= x.score then [s[0]] + Insert(x, s[1..])
    else [x] + s
  }

  /** Insertion adds exactly the one element. */
  lemma {:induction false} InsertPerm(x: Scored, s: seq<Scored>)
    ensures multiset(Insert(x, s)) == multiset(s) + multiset{x}
  {
    if s != [] && s[0].score >= x.score {
      InsertPerm(x, s[1..]);
      assert s == [s[0]] + s[1..];
    }
  }

  /** sorted(..., reverse=True) by score: an insertion sort that keeps ties in order. */
  function StableSortDesc(s: seq<Scored>): seq<Scored>
  {
    if s == [] then [] else Insert(s[|s| - 1], StableSortDesc(s[..|s| - 1]))
  }

  /** The sort is a permutation of its input. */
  lemma {:induction false} StableSortPerm(s: seq<Scored>)
    ensures multiset(StableSortDesc(s)) == multiset(s)
  {
    if s != [] {
      StableSortPerm(s[..|s| - 1]);
      InsertPerm(s[|s| - 1], StableSortDesc(s[..|s| - 1]));
      assert s == s[..|s| - 1] + [s[|s| - 1]];
    }
  }

  /** A head that comes before every element of a ranked list keeps it ranked. */
  lemma ConsRanked(h: Scored, rest: seq<Scored>)
    requires Ranked(rest)
    requires forall k :: 0 <= k < |rest| ==> Before(h, rest[k])
    ensures Ranked([h] + rest)
  {
    var r := [h] + rest;
    forall i, j | 0 <= i < j < |r| ensures Before(r[i], r[j]) {
      assert r[j] == rest[j - 1];
      if i > 0 {
        assert r[i] == rest[i - 1];
      }
    }
  }

  lemma {:induction false} InsertRanked(x: Scored, s: seq<Scored>)
    requires Ranked(s)
    requires forall k :: 0 <= k < |s| ==> s[k].pos < x.pos
    ensures Ranked(Insert(x, s))
  {
    if s == [] {
    } else if s[0].score >= x.score {
      InsertRanked(x, s[1..]);
      InsertPerm(x, s[1..]);
      var rest := Insert(x, s[1..]);
      forall k | 0 <= k < |rest| ensures Before(s[0], rest[k]) {
        assert rest[k] in multiset(rest);
        if rest[k] != x {
          assert rest[k] in multiset(s[1..]);
          var m :| 0 <= m < |s[1..]| && s[1..][m] == rest[k];
          assert s[m + 1] == rest[k];
        }
      }
      ConsRanked(s[0], rest);
    } else {
      forall k | 0 <= k < |s| ensures Before(x, s[k]) {
        assert k == 0 || Before(s[0], s[k]);
      }
      ConsRanked(x, s);
    }
  }

  /** Sorting a list in original order gives a Ranked list. */
  lemma {:induction false} StableSortRanked(s: seq<Scored>)
    requires PosIncreasing(s)
    ensures Ranked(StableSortDesc(s))
  {
    if s != [] {
      var init := s[..|s| - 1];
      var last := s[|s| - 1];
      assert PosIncreasing(init);
      StableSortRanked(init);
      var sorted := StableSortDesc(init);
      StableSortPerm(init);
      forall k | 0 <= k < |sorted| ensures sorted[k].pos < last.pos {
        assert sorted[k] in multiset(init);
        var m :| 0 <= m < |init| && init[m] == sorted[k];
      }
      InsertRanked(last, sorted);
    }
  }

  /** In a ranked list every element is the head or comes after it. */
  lemma RankedHead(s: seq<Scored>, x: Scored)
    requires Ranked(s) && x in s
    ensures x == s[0] || Before(s[0], x)
  {
    var k :| 0 <= k < |s| && s[k] == x;
    assert k == 0 || Before(s[0], s[k]);
  }

  /** Removing the same head from two equal multisets leaves equal tails. */
  lemma SameTail(a: seq<Scored>, b: seq<Scored>)
    requires |a| > 0 && |b| > 0 && a[0] == b[0]
    requires multiset(a) == multiset(b)
    ensures multiset(a[1..]) == multiset(b[1..])
  {
    assert a == [a[0]] + a[1..] && b == [b[0]] + b[1..];
    assert multiset(a[1..]) == multiset(a) - multiset{a[0]};
    assert multiset(b[1..]) == multiset(b) - multiset{a[0]};
  }

  /**
   * A Ranked arrangement of a multiset is unique, so any stable descending
   * sort of the same input gives the same list as StableSortDesc.
   */
  lemma {:induction false} RankedUnique(a: seq<Scored>, b: seq<Scored>)
    requires Ranked(a) && Ranked(b)
    requires multiset(a) == multiset(b)
    ensures a == b
  {
    if a == [] {
      assert |multiset(b)| == 0;
    } else {
      assert |b| == |multiset(b)| == |multiset(a)| == |a|;
      assert a[0] in multiset(b) && b[0] in multiset(a);
      RankedHead(b, a[0]);
      RankedHead(a, b[0]);
      assert a[0] == b[0];
      SameTail(a, b);
      RankedUnique(a[1..], b[1..]);
    }
  }

  /** The filtered-and-sorted candidates, best first. */
  function RankedCandidates(recent: seq<Post>, scores: seq<real>): seq<Scored>
    requires |scores| == |recent|
  {
    StableSortDesc(AboveThreshold(Tag(recent, scores)))
  }

  /**
   * The candidates are exactly the recent posts scoring above the threshold,
   * each with its own score and position, ranked by descending score with
   * ties in the recent posts' order.
   */
  lemma RankedCandidatesSpec(recent: seq<Post>, scores: seq<real>)
    requires |scores| == |recent|
    ensures var c := RankedCandidates(recent, scores);
      Ranked(c) &&
      (forall k :: 0 <= k < |c| ==>
        c[k].pos < |recent| && c[k].post == recent[c[k].pos] && c[k].score == scores[c[k].pos] &&
        c[k].score > POSTS_SIMILARITY_THRESHOLD) &&
      (forall j :: 0 <= j < |recent| && scores[j] > POSTS_SIMILARITY_THRESHOLD ==>
        Scored(recent[j], scores[j], j) in c)
  {
    var t := Tag(recent, scores);
    var f := AboveThreshold(t);
    var c := StableSortDesc(f);
    assert PosIncreasing(t);
    AboveThresholdKeepsOrder(t);
    AboveThresholdMembers(t);
    StableSortRanked(f);
    StableSortPerm(f);
    forall k | 0 <= k < |c|
      ensures c[k].pos < |recent| && c[k].post == recent[c[k].pos] && c[k].score == scores[c[k].pos]
      ensures c[k].score > POSTS_SIMILARITY_THRESHOLD
    {
      assert c[k] in multiset(f);
      assert c[k] in t;
    }
    forall j | 0 <= j < |recent| && scores[j] > POSTS_SIMILARITY_THRESHOLD
      ensures Scored(recent[j], scores[j], j) in c
    {
      assert t[j] in t;
      assert t[j] in multiset(f);
    }
  }

  function PostsOf(s: seq<Scored>): (r: seq<Post>)
    ensures |r| == |s| && forall i :: 0 <= i < |s| ==> r[i] == s[i].post
  {
    seq(|s|, i requires 0 <= i < |s| => s[i].post)
  }

  /**
   * The selection step of find_similar_recent_posts: filter by threshold,
   * stable-sort by descending score, skip the first entry by position, keep
   * at most K_NEAREST_NEIGHBOURS.
   */
  function SimilarRecentPosts(recent: seq<Post>, scores: seq<real>): seq<Post>
    requires |scores| == |recent|
  {
    var c := RankedCandidates(recent, scores);
    if |c| <= 1 then [] else PostsOf(c[1 .. Min(1 + K_NEAREST_NEIGHBOURS, |c|)])
  }

  /**
   * The answer holds at most K posts: the ranked candidates after the first,
   * so each is a recent post scoring above the threshold, best first with
   * ties in recent order; it is empty when at most one post passes.
   */
  lemma SimilarRecentPostsSpec(recent: seq<Post>, scores: seq<real>)
    requires |scores| == |recent|
    ensures var r := SimilarRecentPosts(recent, scores);
      var c := RankedCandidates(recent, scores);
      |r| <= K_NEAREST_NEIGHBOURS &&
      |r| == (if |c| <= 1 then 0 else Min(K_NEAREST_NEIGHBOURS, |c| - 1)) &&
      (forall i :: 0 <= i < |r| ==>
        c[i + 1].pos < |recent| && r[i] == c[i + 1].post && r[i] == recent[c[i + 1].pos] &&
        scores[c[i + 1].pos] > POSTS_SIMILARITY_THRESHOLD) &&
      (forall i, j :: 1 <= i < j <= |r| ==> Before(c[i], c[j]))
  {
    RankedCandidatesSpec(recent, scores);
  }

  /**
   * Self-exclusion in the nominal case: when the original post is a recent
   * post (once) above the threshold and strictly more similar to itself than
   * any other post, the positional skip removes exactly it.
   */
  lemma SelfExcludedWhenStrictlyBest(recent: seq<Post>, scores: seq<real>, self: nat)
    requires |scores| == |recent| && self < |recent|
    requires scores[self] > POSTS_SIMILARITY_THRESHOLD
    requires forall k :: 0 <= k < |recent| && k != self ==> scores[k] < scores[self] && recent[k] != recent[self]
    ensures recent[self] !in SimilarRecentPosts(recent, scores)
  {
    var c := RankedCandidates(recent, scores);
    RankedCandidatesSpec(recent, scores);
    SimilarRecentPostsSpec(recent, scores);
    var me := Scored(recent[self], scores[self], self);
    assert me in c;
    var m :| 0 <= m < |c| && c[m] == me;
    assert m == 0;
    var r := SimilarRecentPosts(recent, scores);
    forall i | 0 <= i < |r| ensures r[i] != recent[self] {
      assert Before(c[0], c[i + 1]);
      assert c[i + 1].pos != self;
    }
  }

  /**
   * The skip is positional: whatever the original post is, the best-ranked
   * candidate is never returned when the recent posts are distinct, so an
   * original that is not itself a recent post loses its best genuine match.
   */
  lemma PositionalSkipDropsBestMatch(recent: seq<Post>, scores: seq<real>)
    requires |scores| == |recent|
    requires forall i, j :: 0 <= i < j < |recent| ==> recent[i] != recent[j]
    requires |RankedCandidates(recent, scores)| >= 1
    ensures RankedCandidates(recent, scores)[0].post !in SimilarRecentPosts(recent, scores)
  {
    var c := RankedCandidates(recent, scores);
    var r := SimilarRecentPosts(recent, scores);
    RankedCandidatesSpec(recent, scores);
    SimilarRecentPostsSpec(recent, scores);
    forall i | 0 <= i < |r| ensures r[i] != c[0].post {
      assert Before(c[0], c[i + 1]);
      assert c[0].pos != c[i + 1].pos;
    }
  }

  /** With two posts scoring 0.9 and 0.8 against an unrelated original, only the second is returned. */
  lemma PositionalSkipExample(a: Post, b: Post)
    ensures SimilarRecentPosts([a, b], [0.9, 0.8]) == [b]
  {
    var t := Tag([a, b], [0.9, 0.8]);
    assert t == [Scored(a, 0.9, 0), Scored(b, 0.8, 1)];
    assert AboveThreshold(t) == t by {
      assert t[1..] == [Scored(b, 0.8, 1)];
      assert AboveThreshold(t[1..][1..]) == [];
      assert AboveThreshold(t[1..]) == t[1..];
    }
    assert StableSortDesc(t) == t by {
      assert t[..1] == [Scored(a, 0.9, 0)];
      assert t[..1][..0] == [];
      assert StableSortDesc(t[..1]) == [Scored(a, 0.9, 0)];
      assert Insert(Scored(b, 0.8, 1), [Scored(a, 0.9, 0)]) == t;
    }
  }

  // ------------------------------------------------- find_similar_recent_posts

  /** cosine_scores[0]: the similarity of the original header to each recent header. */
  function HeaderScores(encode: string -> Embedding, cosine: (Embedding, Embedding) -> real,
                        original: Post, recent: seq<Post>): (s: seq<real>)
    ensures |s| == |recent|
    ensures forall i :: 0 <= i < |s| ==> s[i] == cosine(encode(original.header), encode(recent[i].header))
  {
    seq(|recent|, i requires 0 <= i < |recent| =>
      cosine(encode(original.header), encode(recent[i].header)))
  }

  /** The posts similar to `original` among `recent`, as a function of the encoder. */
  function SimilarTo(original: Post, recent: seq<Post>, encode: string -> Embedding,
                     cosine: (Embedding, Embedding) -> real): seq<Post>
  {
    SimilarRecentPosts(recent, HeaderScores(encode, cosine, original, recent))
  }

  /** The headers of some posts: the keys their embeddings are cached under. */
  function Headers(posts: seq<Post>): set<string> {
    HeadersOfFirst(posts, |posts|)
  }

  /** The headers of the first `n` posts. */
  function HeadersOfFirst(posts: seq<Post>, n: nat): set<string>
    requires n <= |posts|
  {
    if n == 0 then {} else HeadersOfFirst(posts, n - 1) + {posts[n - 1].header}
  }

  /** torch.cat of no embeddings fails: there is no post of the last week to compare with. */
  datatype SimilarityError = NoRecentPosts

  /**
   * The asyncio.gather over the recent headers: the embedding of each post's
   * header, in order, through the cache, which gains exactly those headers.
   */
  method EmbedHeaders(cache: EmbeddingCache, posts: seq<Post>) returns (embeddings: seq<Embedding>)
    requires cache.Valid()
    modifies cache
    ensures cache.Valid()
    ensures |embeddings| == |posts|
    ensures forall k :: 0 <= k < |posts| ==> embeddings[k] == cache.encode(posts[k].header)
    ensures cache.entries.Keys == old(cache.entries).Keys + Headers(posts)
  {
    embeddings := [];
    for i := 0 to |posts|
      invariant cache.Valid()
      invariant |embeddings| == i
      invariant forall k :: 0 <= k < i ==> embeddings[k] == cache.encode(posts[k].header)
      invariant cache.entries.Keys == old(cache.entries).Keys + HeadersOfFirst(posts, i)
    {
      var e := cache.GetOrCalculateEmbeddingOfHeader(posts[i].header);
      embeddings := embeddings + [e];
    }
  }

  /**
   * find_similar_recent_posts: looks up (or computes) the embedding of the
   * original header and of every recent header through the cache, then
   * selects the similar posts. The answer does not depend on what the cache
   * held before; the cache gains exactly the headers looked up.
   */
  method FindSimilarRecentPosts(cache: EmbeddingCache, posts: seq<Post>, original: Post, now: Timestamp,
                                cosine: (Embedding, Embedding) -> real)
    returns (r: Result<seq<Post>, SimilarityError>)
    requires cache.Valid()
    modifies cache
    ensures cache.Valid()
    ensures var recent := Crud.AllPostsForLastWeek(posts, now);
      r == if recent == [] then Err(NoRecentPosts) else Ok(SimilarTo(original, recent, cache.encode, cosine))
    ensures cache.entries.Keys ==
      old(cache.entries).Keys + {original.header} + Headers(Crud.AllPostsForLastWeek(posts, now))
  {
    var recent := Crud.AllPostsForLastWeek(posts, now);
    var query := cache.GetOrCalculateEmbeddingOfHeader(original.header);
    var embeddings := EmbedHeaders(cache, recent);
    if recent == [] {
      return Err(NoRecentPosts);
    }
    var scores := seq(|recent|, i requires 0 <= i < |recent| => cosine(query, embeddings[i]));
    assert scores == HeaderScores(cache.encode, cosine, original, recent);
    r := Ok(SimilarRecentPosts(recent, scores));
  }
}
