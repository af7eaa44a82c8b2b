/** The post service: the filters behind the post listings, lookup by id, and the life
    cycle of one post (creation, likes, update, deletion). */
module PostService {
  import opened Wrappers
  import opened Schemas
  import opened Lists
  import opened Sorting
  import opened Database
  import opened TagService
  import opened PostFilters

  const SKIP_DEFAULT_NUMBER: nat := 0
  const LIMIT_DEFAULT_NUMBER: nat := 100
  const LATEST_DEFAULT_VALUE: bool := false

  /** The exception a service call can raise. */
  datatype ServiceError = TypeError

  /** `get_post_by_id`: the stored post with that id, if any. */
  function GetPostById(db: Db, postId: PostId): (r: Option<Post>)
    reads db
    requires db.Valid()
    ensures r.Some? <==> postId in db.posts
    ensures r.Some? ==> r.value == db.posts[postId] && r.value.id == postId && r.value in db.Table()
  {
    if postId in db.posts then Some(db.posts[postId]) else None
  }

  /** `get_posts_by_owner` over the posts table. */
  function GetPostsByOwner(db: Db, ownerId: int, skip: nat, limit: nat, latest: bool): (r: seq<Post>)
    reads db
    requires db.Valid()
    ensures forall p <- r :: p in db.Table() && p.ownerId == ownerId
    ensures NoDup(r)
    ensures |r| == Max(0, Min(skip + limit, |OwnedBy(db.Table(), ownerId)|) - skip) && |r| <= limit
    ensures !latest ==> forall i :: 0 <= i < |r| ==> r[i] == OwnedBy(db.Table(), ownerId)[skip + i]
    ensures latest ==> forall i :: 0 <= i < |r| ==> r[i] == SortLatest(OwnedBy(db.Table(), ownerId))[skip + i]
    ensures latest ==> SortedDesc(r)
    ensures latest && skip == 0 ==> forall p <- r, q <- OwnedBy(db.Table(), ownerId) ::
              q !in r ==> CreatedKey(q) <= CreatedKey(p)
    ensures skip == 0 && |OwnedBy(db.Table(), ownerId)| <= limit ==>
              forall p <- db.Table() :: p.ownerId == ownerId ==> p in r
  {
    OwnerPage(db.Table(), ownerId, skip, limit, latest)
  }

  /** `get_posts_by_tags`: the running intersection over the slugs, then the optional sort
      and the `[skip:limit]` cut. */
  method GetPostsByTags(db: Db, tagsSlug: seq<string>, skip: nat, limit: nat, latest: bool)
    returns (r: seq<Post>)
    requires db.Valid()
    ensures r == TagFilter(db.Table(), db.tags, tagsSlug, skip, limit, latest)
  {
    var rows := db.Table();
    var posts: seq<Post> := [];
    var i := 0;
    while i < |tagsSlug|
      invariant 0 <= i <= |tagsSlug|
      invariant posts == TagRunning(rows, db.tags, tagsSlug[..i])
    {
      var tag := GetTagBySlug(db, tagsSlug[i]);
      if tag.Some? {
        var postsTemp := PostsWithTag(rows, tag.value.slug);
        posts := if posts != [] then KeepIn(postsTemp, posts) else postsTemp;
      }
      assert tagsSlug[..i + 1][..i] == tagsSlug[..i];
      i := i + 1;
    }
    assert tagsSlug[..i] == tagsSlug;
    if latest {
      posts := SortByCreatedOnDesc(posts);
    }
    r := PySlice(posts, skip, limit);
  }

  /** `get_posts_by_owners`: the pages of the distinct requested owners concatenated, then
      the optional sort and the `[skip:limit]` cut. The owners are visited in the order of
      their first request; the contract speaks of membership only, so it holds for
      whichever order the iteration of the set of ids takes. */
  method GetPostsByOwners(db: Db, ownersIds: seq<int>, skip: nat, limit: nat, latest: bool)
    returns (r: seq<Post>)
    requires db.Valid()
    ensures PageOf(OwnersPosts(db.Table(), IdSet(ownersIds), skip, limit, latest), skip, limit, latest, r)
  {
    var rows := db.Table();
    var posts: seq<Post> := [];
    var seen: set<int> := {};
    var i := 0;
    while i < |ownersIds|
      invariant 0 <= i <= |ownersIds|
      invariant seen == IdSet(ownersIds[..i])
      invariant forall p :: p in posts <==> p in OwnersPosts(rows, seen, skip, limit, latest)
      invariant NoDup(posts)
    {
      var ownerId := ownersIds[i];
      if ownerId !in seen {
        var postsByOwner := GetPostsByOwner(db, ownerId, skip, limit, latest);
        OwnersPostsStep(rows, seen, ownerId, skip, limit, latest);
        NoDupConcat(posts, postsByOwner);
        posts := posts + postsByOwner;
        seen := seen + {ownerId};
      }
      assert ownersIds[..i + 1] == ownersIds[..i] + [ownerId];
      i := i + 1;
    }
    assert ownersIds[..i] == ownersIds;
    PageOfGathered(posts, OwnersPosts(rows, IdSet(ownersIds), skip, limit, latest), skip, limit, latest);
    if latest {
      posts := SortByCreatedOnDesc(posts);
    }
    r := PySlice(posts, skip, limit);
  }

  /** `get_posts_by_owners_and_tags`: both filters run with the same page parameters, then
      their intersection (see `Combine`) is sorted when `latest` and cut again. */
  method GetPostsByOwnersAndTags(db: Db, ownersIds: seq<int>, tagsSlug: seq<string>,
                                 skip: nat, limit: nat, latest: bool) returns (r: seq<Post>)
    requires db.Valid()
    ensures CombinedQuery(db.Table(), db.tags, IdSet(ownersIds), tagsSlug, skip, limit, latest, r)
    ensures skip == 0 && CombinedFits(db.Table(), db.tags, IdSet(ownersIds), tagsSlug, limit, latest) ==>
              forall p :: p in r <==> p in db.Table() && p.ownerId in IdSet(ownersIds) && CarriesAll(db.tags, p, tagsSlug)
    ensures forall p <- r :: p in TagFilter(db.Table(), db.tags, tagsSlug, skip, limit, latest)
    ensures forall p <- r :: p in OwnersPosts(db.Table(), IdSet(ownersIds), skip, limit, latest)
    ensures NoDup(r) && |r| <= Max(0, limit - skip)
    ensures latest ==> SortedDesc(r)
  {
    var rows := db.Table();
    var postsByTags := GetPostsByTags(db, tagsSlug, skip, limit, latest);
    var postsByOwners := GetPostsByOwners(db, ownersIds, skip, limit, latest);
    TagFilterInTable(rows, db.tags, tagsSlug, skip, limit, latest);
    CombinedPage(postsByTags, postsByOwners, skip, limit, latest);
    var posts := Combine(postsByTags, postsByOwners);
    if latest {
      posts := SortByCreatedOnDesc(posts);
    }
    r := PySlice(posts, skip, limit);
    assert CombinedQuery(rows, db.tags, IdSet(ownersIds), tagsSlug, skip, limit, latest, r) by {
      assert PageOf(OwnersPosts(rows, IdSet(ownersIds), skip, limit, latest), skip, limit, latest, postsByOwners);
      assert r == PySlice(SortIf(latest, Combine(postsByTags, postsByOwners)), skip, limit);
    }
    if skip == 0 && CombinedFits(rows, db.tags, IdSet(ownersIds), tagsSlug, limit, latest) {
      forall p ensures p in r <==> p in rows && p.ownerId in IdSet(ownersIds) && CarriesAll(db.tags, p, tagsSlug) {
        CombinedExact(rows, db.tags, IdSet(ownersIds), tagsSlug, limit, latest, r, p);
      }
    }
  }

  /** `get_posts`: both filters, one of them, or the whole table. */
  method GetPosts(db: Db, ownersIds: Option<seq<int>>, tagsSlug: Option<seq<string>>,
                  skip: nat, limit: nat, latest: bool) returns (r: seq<Post>)
    requires db.Valid()
    ensures PostsQuery(db.Table(), db.tags, ownersIds, tagsSlug, skip, limit, latest, r)
  {
    if ownersIds.Some? && tagsSlug.Some? {
      r := GetPostsByOwnersAndTags(db, ownersIds.value, tagsSlug.value, skip, limit, latest);
      return;
    }
    if ownersIds.Some? {
      r := GetPostsByOwners(db, ownersIds.value, skip, limit, latest);
      return;
    }
    if tagsSlug.Some? {
      r := GetPostsByTags(db, tagsSlug.value, skip, limit, latest);
      TagFilterInTable(db.Table(), db.tags, tagsSlug.value, skip, limit, latest);
      return;
    }
    r := AllPostsPage(db.Table(), skip, limit, latest);
  }

  /** The slugs of a list of tags, in order. */
  function TagSlugs(ts: seq<Tag>): (r: seq<string>)
    ensures |r| == |ts|
    ensures forall i :: 0 <= i < |ts| ==> r[i] == ts[i].slug
  {
    seq(|ts|, i requires 0 <= i < |ts| => ts[i].slug)
  }

  /** Where the uploaded image of a post is stored. */
  function ImagePath(directory: string, postId: PostId, filename: string): (r: string)
    ensures |r| == |directory| + |postId| + |filename| + 2
    ensures r[..|directory|] == directory && r[|directory|] == '/'
    ensures r[|directory| + 1..|directory| + 1 + |postId|] == postId && r[|directory| + 1 + |postId|] == '_'
    ensures r[|r| - |filename|..] == filename
  {
    directory + "/" + postId + "_" + filename
  }

  /** The record `create_post` stores for a request. */
  function NewPost(post: PostCreate, postId: PostId, image: string, now: DateTime): Post
  {
    Post(postId, image, post.caption, Slugs(post.tags), 0, [], post.published,
         if post.published then now else DEFAULT_DATETIME, post.ownerId, now, now)
  }

  /** The dates of a post agree with its life cycle: an unpublished post carries the
      sentinel publication date, and creation, publication and last update come in order. */
  predicate Timeline(p: Post)
  {
    && (!p.published ==> p.publishedOn == DEFAULT_DATETIME)
    && Ticks(p.createdOn) <= Ticks(p.updatedOn)
    && (p.published ==> Ticks(p.createdOn) <= Ticks(p.publishedOn) <= Ticks(p.updatedOn))
  }

  /** A new post is created and updated at `now`, published then or not at all, and starts
      with no likes and no comments. */
  lemma NewPostFields(post: PostCreate, postId: PostId, image: string, now: DateTime)
    ensures var p := NewPost(post, postId, image, now);
      && p.createdOn == p.updatedOn == now
      && p.publishedOn == (if post.published then now else DEFAULT_DATETIME)
      && p.likes == 0 && p.comments == []
      && |p.tags| == |post.tags|
      && Timeline(p)
  {
  }

  lemma UpdateTwice<K, V>(m: map<K, V>, k: K, a: V, b: V)
    ensures m[k := a][k := b] == m[k := b]
  {
  }

  /** `db.add` of a new post whose tags exist. */
  method AddPost(db: Db, p: Post)
    requires db.Valid() && p.id !in db.posts && forall s <- p.tags :: s in db.tags
    modifies db
    ensures db.Valid()
    ensures db.posts == old(db.posts)[p.id := p] && db.postOrder == old(db.postOrder) + [p.id]
    ensures db.tags == old(db.tags) && db.tagOrder == old(db.tagOrder) && db.nextTagId == old(db.nextTagId)
  {
    db.posts := db.posts[p.id := p];
    db.postOrder := db.postOrder + [p.id];
  }

  /** Writes back a stored post whose tags exist. */
  method SetPost(db: Db, p: Post)
    requires db.Valid() && p.id in db.posts && forall s <- p.tags :: s in db.tags
    modifies db
    ensures db.Valid()
    ensures db.posts == old(db.posts)[p.id := p] && db.postOrder == old(db.postOrder)
    ensures db.tags == old(db.tags) && db.tagOrder == old(db.tagOrder) && db.nextTagId == old(db.nextTagId)
  {
    db.posts := db.posts[p.id := p];
  }

  /** `create_post`: resolves the tag names (only when there are some), stores the record
      with an empty image, then sets the image to its path under the images directory. */
  method CreatePost(db: Db, post: PostCreate, postId: PostId, now: DateTime,
                    imagesDirectory: string, filename: string) returns (p: Post)
    requires db.Valid() && ValidPostCreate(post) && postId !in db.posts
    modifies db
    ensures db.Valid()
    ensures p == NewPost(post, postId, ImagePath(imagesDirectory, postId, filename), now)
    ensures db.posts == old(db.posts)[postId := p]
    ensures db.postOrder == old(db.postOrder) + [postId]
    ensures forall s :: s in old(db.tags) ==> s in db.tags && db.tags[s] == old(db.tags)[s]
    ensures forall s :: s in db.tags <==> s in old(db.tags) || s in p.tags
    ensures NewTagsFrom(old(db.tags), db.tags, post.tags, now)
    ensures db.tagOrder == old(db.tagOrder) + Fresh(old(db.tags).Keys, p.tags)
  {
    var dbTags: seq<Tag> := [];
    if post.tags != [] {
      dbTags := CreateTagFromPost(db, post.tags, now);
    }
    assert TagSlugs(dbTags) == Slugs(post.tags);
    assert forall s <- Slugs(post.tags) :: s in db.tags;
    ghost var tagsAfter := db.tags;
    ghost var orderAfter := db.tagOrder;
    assert NewTagsFrom(old(db.tags), tagsAfter, post.tags, now);
    assert orderAfter == old(db.tagOrder) + Fresh(old(db.tags).Keys, Slugs(post.tags));
    ghost var postsBefore := db.posts;
    assert postsBefore == old(db.posts);
    assert forall s :: s in old(db.tags) ==> s in tagsAfter && tagsAfter[s] == old(db.tags)[s];
    assert forall s :: s in tagsAfter <==> s in old(db.tags) || s in Slugs(post.tags);
    var dbPost := Post(postId, "", post.caption, TagSlugs(dbTags), 0, [], post.published,
                       DEFAULT_DATETIME, post.ownerId, now, now);
    dbPost := dbPost.(publishedOn := if post.published then now else DEFAULT_DATETIME);
    AddPost(db, dbPost);
    var destination := ImagePath(imagesDirectory, postId, filename);
    dbPost := dbPost.(image := destination);
    SetPost(db, dbPost);
    assert db.tags == tagsAfter && db.tagOrder == orderAfter;
    assert dbPost == NewPost(post, postId, destination, now);
    UpdateTwice(postsBefore, postId, dbPost.(image := ""), dbPost);
    p := dbPost;
  }

  /** The new value of `likes` after one like or unlike: one more or one fewer. */
  function ApplyLike(p: Post, action: LikeAction): (r: Post)
    ensures r.likes - p.likes == (if action == Like then 1 else -1)
    ensures r.(likes := p.likes) == p
  {
    p.(likes := if action == Like then p.likes + 1 else p.likes - 1)
  }

  /** `like_unlike_post`: the update touches the post with that id, if there is one, and
      the post is read back. */
  method LikeUnlikePost(db: Db, postId: PostId, action: LikeAction) returns (r: Option<Post>)
    requires db.Valid()
    modifies db
    ensures db.Valid()
    ensures postId in old(db.posts) ==>
              db.posts == old(db.posts)[postId := ApplyLike(old(db.posts)[postId], action)]
              && r == Some(db.posts[postId])
    ensures postId !in old(db.posts) ==> db.posts == old(db.posts) && r == None
    ensures db.postOrder == old(db.postOrder) && db.tags == old(db.tags)
    ensures db.tagOrder == old(db.tagOrder) && db.nextTagId == old(db.nextTagId)
  {
    if postId in db.posts {
      db.posts := db.posts[postId := ApplyLike(db.posts[postId], action)];
    }
    r := GetPostById(db, postId);
  }

  /** The guard `db_post.published is False & upd_post.published`, which Python reads as
      `published is (False & requested)`: for a boolean request it holds exactly when the
      post is unpublished, and a missing request value raises TypeError. */
  function PublishGuard(published: bool, requested: Option<bool>): (r: Result<bool, ServiceError>)
    ensures r.Err? <==> requested.None?
    ensures r.Ok? ==> (r.value <==> !published)
  {
    match requested
    case None => Err(TypeError)
    case Some(b) => Ok(published == (false && b))
  }

  /** What `update_post` makes of a post, or the error it raises. */
  function ApplyUpdate(p: Post, upd: PostUpdate, now: DateTime): (r: Result<Post, ServiceError>)
    ensures r.Err? <==> upd.published.None?
    ensures r.Ok? ==> r.value.caption == (if upd.caption.Some? then upd.caption else p.caption)
    ensures r.Ok? ==> r.value.tags == (if upd.tags.Some? then Slugs(upd.tags.value) else p.tags)
    ensures r.Ok? ==> (r.value.published <==> p.published || upd.published == Some(true))
    ensures r.Ok? && !r.value.published ==> r.value.publishedOn == p.publishedOn
    ensures r.Ok? && p.published ==> r.value.publishedOn == p.publishedOn
    ensures r.Ok? && r.value.published != p.published ==> r.value.publishedOn == now
    ensures r.Ok? ==> r.value.(caption := p.caption, tags := p.tags, published := p.published,
                               publishedOn := p.publishedOn, updatedOn := p.updatedOn) == p
    ensures r.Ok? && (upd.caption.Some? || upd.tags.Some? || r.value.published != p.published) ==>
              r.value.updatedOn == now
    ensures r.Ok? && upd.caption.None? && upd.tags.None? && r.value.published == p.published ==>
              r.value == p
  {
    match PublishGuard(p.published, upd.published)
    case Err(e) => Err(e)
    case Ok(guard) =>
      var publish := guard && upd.published == Some(true);
      var changed := upd.caption.Some? || upd.tags.Some? || publish;
      Ok(p.(caption := if upd.caption.Some? then upd.caption else p.caption,
            tags := if upd.tags.Some? then Slugs(upd.tags.value) else p.tags,
            published := p.published || publish,
            publishedOn := if publish then now else p.publishedOn,
            updatedOn := if changed then now else p.updatedOn))
  }

  /** An update at a time no earlier than the last one keeps the dates in order. */
  lemma UpdateKeepsTimeline(p: Post, upd: PostUpdate, now: DateTime)
    requires Timeline(p) && Ticks(p.updatedOn) <= Ticks(now)
    requires ApplyUpdate(p, upd, now).Ok?
    ensures Timeline(ApplyUpdate(p, upd, now).value)
  {
  }

  /** Likes leave the dates alone. */
  lemma LikeKeepsTimeline(p: Post, action: LikeAction)
    requires Timeline(p)
    ensures Timeline(ApplyLike(p, action))
  {
  }

  /** `update_post`, step by step as the service does it: caption, then tags (resolving the
      names, which may create tags), then the publication guard, then `updated_on` when
      anything changed. On TypeError the tags already created stay and the post is not
      written. */
  method UpdatePost(db: Db, postId: PostId, upd: PostUpdate, now: DateTime)
    returns (r: Result<Post, ServiceError>)
    requires db.Valid() && ValidPostUpdate(upd) && postId in db.posts
    modifies db
    ensures db.Valid()
    ensures r == ApplyUpdate(old(db.posts[postId]), upd, now)
    ensures r.Ok? ==> db.posts == old(db.posts)[postId := r.value]
    ensures r.Err? ==> db.posts == old(db.posts)
    ensures db.postOrder == old(db.postOrder)
    ensures upd.tags.None? ==> db.tags == old(db.tags) && db.tagOrder == old(db.tagOrder)
    ensures forall s :: s in old(db.tags) ==> s in db.tags && db.tags[s] == old(db.tags)[s]
    ensures upd.tags.Some? ==> forall s :: s in db.tags <==> s in old(db.tags) || s in Slugs(upd.tags.value)
    ensures upd.tags.Some? ==> NewTagsFrom(old(db.tags), db.tags, upd.tags.value, now)
    ensures upd.tags.Some? ==> db.tagOrder == old(db.tagOrder) + Fresh(old(db.tags).Keys, Slugs(upd.tags.value))
  {
    var dbPost := db.posts[postId];
    var hasBeenUpdated := false;
    if upd.caption.Some? {
      dbPost := dbPost.(caption := upd.caption);
      hasBeenUpdated := true;
    }
    if upd.tags.Some? {
      var dbTags := CreateTagFromPost(db, upd.tags.value, now);
      assert TagSlugs(dbTags) == Slugs(upd.tags.value);
      dbPost := dbPost.(tags := TagSlugs(dbTags));
      hasBeenUpdated := true;
    }
    var guard := PublishGuard(dbPost.published, upd.published);
    if guard.Err? {
      r := Err(guard.error);
      return;
    }
    if guard.value && upd.published == Some(true) {
      dbPost := dbPost.(published := true, publishedOn := now);
      hasBeenUpdated := true;
    }
    if hasBeenUpdated {
      dbPost := dbPost.(updatedOn := now);
    }
    db.posts := db.posts[postId := dbPost];
    r := Ok(dbPost);
  }

  /** `delete_post`: removes the post; its tags stay. */
  method DeletePost(db: Db, postId: PostId) returns (ok: bool)
    requires db.Valid() && postId in db.posts
    modifies db
    ensures db.Valid()
    ensures ok
    ensures db.posts == old(db.posts) - {postId}
    ensures db.postOrder == Remove(old(db.postOrder), postId)
    ensures db.tags == old(db.tags) && db.tagOrder == old(db.tagOrder) && db.nextTagId == old(db.nextTagId)
  {
    db.posts := db.posts - {postId};
    db.postOrder := Remove(db.postOrder, postId);
    ok := true;
  }
}
