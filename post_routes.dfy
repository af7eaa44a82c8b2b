/** The guards of the post routes: each looks the post up, answers `NotFound` when it is
    missing, and otherwise hands over to the post service. */
module PostRoutes {
  import opened Wrappers
  import opened Schemas
  import opened Sorting
  import opened Database
  import opened PostFilters
  import opened Responses
  import opened Lists
  import TagService
  import PostService

  /** `fetch_posts`: `get_posts` with `latest` left at its default. */
  method FetchPosts(db: Db, ownersIds: Option<seq<int>>, tagsSlug: Option<seq<string>>,
                    skip: nat := PostService.SKIP_DEFAULT_NUMBER, limit: nat := PostService.LIMIT_DEFAULT_NUMBER)
    returns (r: seq<Post>)
    requires db.Valid()
    ensures PostsQuery(db.Table(), db.tags, ownersIds, tagsSlug, skip, limit, false, r)
  {
    r := PostService.GetPosts(db, ownersIds, tagsSlug, skip, limit, PostService.LATEST_DEFAULT_VALUE);
  }

  /** `fetch_latest_posts`: `get_posts` with `latest` set, so the page is newest first. */
  method FetchLatestPosts(db: Db, ownersIds: Option<seq<int>>, tagsSlug: Option<seq<string>>,
                          skip: nat := PostService.SKIP_DEFAULT_NUMBER, limit: nat := PostService.LIMIT_DEFAULT_NUMBER)
    returns (r: seq<Post>)
    requires db.Valid()
    ensures PostsQuery(db.Table(), db.tags, ownersIds, tagsSlug, skip, limit, true, r)
    ensures SortedDesc(r)
  {
    r := PostService.GetPosts(db, ownersIds, tagsSlug, skip, limit, true);
  }

  /** `get_post`: exactly the stored post, or `NotFound`. */
  function GetPost(db: Db, postId: PostId): (r: Response<Post>)
    reads db
    requires db.Valid()
    ensures r.Success? <==> postId in db.posts
    ensures r.Success? ==> r.value == db.posts[postId]
    ensures !r.Success? ==> r == NotFound
  {
    match PostService.GetPostById(db, postId)
    case None => NotFound
    case Some(p) => Success(p)
  }

  /** What `like_or_unlike_post` makes of a stored post: an unlike at zero likes or fewer
      leaves it as it is, anything else goes through the service. */
  function GuardedLike(p: Post, action: LikeAction): (r: Post)
    ensures r.(likes := p.likes) == p
    ensures action == Like ==> r.likes == p.likes + 1
    ensures action == Unlike && p.likes > 0 ==> r.likes == p.likes - 1
    ensures action == Unlike && p.likes <= 0 ==> r == p
    ensures p.likes >= 0 ==> r.likes >= 0
  {
    if action == Unlike && p.likes <= 0 then p else PostService.ApplyLike(p, action)
  }

  /** `like_or_unlike_post`. */
  method LikeOrUnlikePost(db: Db, postId: PostId, action: LikeAction) returns (r: Response<Post>)
    requires db.Valid()
    modifies db
    ensures db.Valid()
    ensures postId !in old(db.posts) ==> r == NotFound && db.posts == old(db.posts)
    ensures postId in old(db.posts) ==>
              r == Success(GuardedLike(old(db.posts[postId]), action))
              && db.posts == old(db.posts)[postId := r.value]
    ensures db.postOrder == old(db.postOrder) && db.tags == old(db.tags) && db.tagOrder == old(db.tagOrder)
  {
    var dbPost := PostService.GetPostById(db, postId);
    if dbPost.None? {
      return NotFound;
    }
    if action == Unlike {
      if dbPost.value.likes <= 0 {
        assert db.posts == db.posts[postId := dbPost.value];
        return Success(dbPost.value);
      }
    }
    var updated := PostService.LikeUnlikePost(db, postId, action);
    r := Success(updated.value);
  }

  /** Likes and unlikes in turn, each through the route's guard. */
  function LikeRun(p: Post, actions: seq<LikeAction>): Post
    decreases |actions|
  {
    if actions == [] then p
    else GuardedLike(LikeRun(p, actions[..|actions| - 1]), actions[|actions| - 1])
  }

  /** Starting from no negative count, no run of likes and unlikes makes it negative. */
  lemma {:induction false} LikeRunNonNegative(p: Post, actions: seq<LikeAction>)
    requires p.likes >= 0
    ensures LikeRun(p, actions).likes >= 0
    decreases |actions|
  {
    if actions != [] {
      LikeRunNonNegative(p, actions[..|actions| - 1]);
    }
  }

  /** Runs that never unlike at zero count exactly: likes minus unlikes. */
  lemma {:induction false} LikeRunCounts(p: Post, likes: nat, unlikes: nat)
    requires p.likes >= 0 && unlikes <= p.likes + likes
    ensures LikeRun(p, seq(likes, _ => Like) + seq(unlikes, _ => Unlike)).likes == p.likes + likes - unlikes
    decreases likes + unlikes
  {
    var actions := seq(likes, _ => Like) + seq(unlikes, _ => Unlike);
    if unlikes > 0 {
      var shorter := seq(likes, _ => Like) + seq(unlikes - 1, _ => Unlike);
      assert actions[..|actions| - 1] == shorter;
      LikeRunCounts(p, likes, unlikes - 1);
    } else if likes > 0 {
      var shorter := seq(likes - 1, _ => Like) + seq(0, _ => Unlike);
      assert actions[..|actions| - 1] == shorter;
      LikeRunCounts(p, likes - 1, 0);
    } else {
      assert actions == [];
    }
  }

  /** Nine likes then two unlikes on a new post leave seven. */
  lemma NineLikesTwoUnlikes(p: Post)
    requires p.likes == 0
    ensures LikeRun(p, seq(9, _ => Like) + seq(2, _ => Unlike)).likes == 7
  {
    LikeRunCounts(p, 9, 2);
  }

  /** The route's shortcut: an already published post whose caption and tags are both
      left as they are is returned as stored. */
  predicate SkipsUpdate(p: Post, upd: PostUpdate)
  {
    p.published && upd.caption.None? && upd.tags.None?
  }

  /** The shortcut only spares the TypeError of a missing `published`: with a boolean
      `published` the service would have left the post as it is too. */
  lemma SkipsOnlyTypeError(p: Post, upd: PostUpdate, now: DateTime)
    requires SkipsUpdate(p, upd)
    ensures PostService.ApplyUpdate(p, upd, now) ==
              if upd.published.None? then Err(PostService.TypeError) else Ok(p)
  {
  }

  /** `update_post`: `NotFound`, the shortcut, or the service, whose TypeError surfaces as
      `ServerError`. */
  method UpdatePost(db: Db, postId: PostId, upd: PostUpdate, now: DateTime) returns (r: Response<Post>)
    requires db.Valid() && ValidPostUpdate(upd)
    modifies db
    ensures db.Valid()
    ensures postId !in old(db.posts) ==>
              r == NotFound && db.posts == old(db.posts) && db.tags == old(db.tags)
    ensures postId in old(db.posts) && SkipsUpdate(old(db.posts[postId]), upd) ==>
              r == Success(old(db.posts[postId])) && db.posts == old(db.posts) && db.tags == old(db.tags)
    ensures postId in old(db.posts) && !SkipsUpdate(old(db.posts[postId]), upd) ==>
              match PostService.ApplyUpdate(old(db.posts[postId]), upd, now)
              case Ok(q) => r == Success(q) && db.posts == old(db.posts)[postId := q]
              case Err(_) => r == ServerError && db.posts == old(db.posts)
    ensures db.postOrder == old(db.postOrder)
    ensures forall s :: s in old(db.tags) ==> s in db.tags && db.tags[s] == old(db.tags)[s]
    ensures upd.tags.None? ==> db.tags == old(db.tags)
    ensures upd.tags.Some? ==> forall s :: s in db.tags <==>
              s in old(db.tags) || (postId in old(db.posts) && s in TagService.Slugs(upd.tags.value))
    ensures postId in old(db.posts) && upd.tags.Some? ==>
              && TagService.NewTagsFrom(old(db.tags), db.tags, upd.tags.value, now)
              && db.tagOrder == old(db.tagOrder) + TagService.Fresh(old(db.tags).Keys, TagService.Slugs(upd.tags.value))
    ensures postId !in old(db.posts) || upd.tags.None? ==> db.tagOrder == old(db.tagOrder)
  {
    var dbPost := PostService.GetPostById(db, postId);
    if dbPost.None? {
      return NotFound;
    }
    if dbPost.value.published {
      if upd.caption.None? && upd.tags.None? {
        return Success(dbPost.value);
      }
    }
    var updated := PostService.UpdatePost(db, postId, upd, now);
    match updated
    case Ok(q) => r := Success(q);
    case Err(_) => r := ServerError;
  }

  /** `delete_post`: `NotFound`, or the post removed and the success message. The service
      answers True whenever the post exists, so `DeleteFailed` does not arise. */
  method DeletePost(db: Db, postId: PostId) returns (r: Response<Message>)
    requires db.Valid()
    modifies db
    ensures db.Valid()
    ensures postId !in old(db.posts) ==>
              r == NotFound && db.posts == old(db.posts) && db.postOrder == old(db.postOrder)
    ensures postId in old(db.posts) ==>
              && r == Success(POST_DELETED) && db.posts == old(db.posts) - {postId}
              && db.postOrder == Remove(old(db.postOrder), postId)
    ensures postId !in db.posts
    ensures db.tags == old(db.tags) && db.tagOrder == old(db.tagOrder)
  {
    var dbPost := PostService.GetPostById(db, postId);
    if dbPost.None? {
      return NotFound;
    }
    var ok := PostService.DeletePost(db, postId);
    r := if ok then Success(POST_DELETED) else DeleteFailed;
  }

  /** A new post liked nine times through the route, then unliked twice, has seven likes. */
  method LikeScenario(db: Db, postId: PostId) returns (likes: int)
    requires db.Valid() && postId in db.posts && db.posts[postId].likes == 0
    modifies db
    ensures likes == 7
  {
    var i := 0;
    while i < 9
      invariant 0 <= i <= 9
      invariant db.Valid() && postId in db.posts && db.posts[postId].likes == i
    {
      var _ := LikeOrUnlikePost(db, postId, Like);
      i := i + 1;
    }
    i := 0;
    while i < 2
      invariant 0 <= i <= 2
      invariant db.Valid() && postId in db.posts && db.posts[postId].likes == 9 - i
    {
      var _ := LikeOrUnlikePost(db, postId, Unlike);
      i := i + 1;
    }
    var fetched := GetPost(db, postId);
    likes := fetched.value.likes;
  }
}
