# Posts and tags: a Dafny model

This project models the core of a small posts service. The service keeps two tables.
The posts table holds, per post:

- an image path and a caption;
- its tags and its likes;
- a publication flag;
- the owner's id;
- creation, publication and update times.

The record the API returns also has a comments list; no column backs it. The tags table
holds a name, a slug (the lower-cased name) and a creation time per tag.

The model covers:

- the post filter engine behind the listing routes: by owners, by tags, both, or neither,
  with the optional newest-first sort and the `posts[skip:limit]` cut;
- the tag table: lookup by lower-cased slug, creation, resolution of the tag names of a
  post (reusing or creating each tag), and deletion;
- the life cycle of one post: creation, likes, update and deletion;
- the guards of the post and tag routes, as methods that answer a `Response`
  (`Success`, `NotFound`, `Conflict`, `DeleteFailed`, `ServerError`) instead of raising
  HTTP exceptions;
- the request and record shapes and their constants (`TAG_MIN_LENGTH`,
  `DEFAULT_DATETIME`, the defaults of a new post and of an update).

The database session becomes the class `Database.Db`. It holds the posts by id and the
tags by slug as maps, plus the insertion order of each table, and `Db.Valid()` states the
table invariants. `tag.posts` is derived: it is the posts whose tags contain the slug, in
table order (`Database.PostsWithTag`). The current time is a parameter `now`. So are the
images directory and the uploaded file's name.

Modules follow the source files:

| module | source |
|---|---|
| `Schemas` | `schemas/schemas.py` |
| `TagService` | `services/tag.py` |
| `PostService` | `services/post.py` |
| `PostRoutes` | `routes/posts.py` |
| `TagRoutes` | `routes/tags.py` |
| `Responses` | the route answers and `routes/shared_constants_and_methods.py` |

Four modules serve them:

- `PostFilters`: the specification functions of the filters, and their lemmas.
- `Lists`: Python list idioms, including the slice and SQL `OFFSET`/`LIMIT`.
- `Sorting`: the stable newest-first sort.
- `Text`: ASCII lower-casing.

Each filter has a specification in `PostFilters`:

- The tag filter and the owners filter loop over their input. Each of those service
  methods is proved equal to a specification function, or to a page of a specification set.
- The combined filter is proved equal to the intersection computed from such a page.
- The per-owner query (`PostService.GetPostsByOwner`) and the unfiltered listing
  (`PostFilters.AllPostsPage`) have no loop. They are functions with their own contracts.

The lemmas in `PostFilters` state what these specifications mean, including when a first
page returns exactly the matching rows.

The quirks of the source are kept as written:

- Pagination is `posts[skip:limit]`. `limit` is therefore an end index for the in-memory
  filters but a row count for the per-owner query.
- Per-owner pages are cut once by the query and again after the union.
- The tag loop re-seeds its running list when that list becomes empty.
  `PostFilters.ReseedExample` shows that it can then return a post lacking an earlier
  requested tag.
- The combined filter keeps the order of the strictly shorter list.
- The publication guard of `update_post` is read with Python's precedence:
  `published is (False & requested)`.

## Model

| member | source | states |
|---|---|---|
| `Schemas.DefaultIsEarliest` | project/src/app/schemas/schemas.py:7 | the never-published sentinel 0001-01-01 00:00:00 is the earliest well-formed date |
| `Schemas.TicksOrder` | project/src/app/services/post.py:115 | on well-formed dates the sort key is smaller exactly when the date is earlier, and equal exactly when the dates are |
| `Schemas.DefaultPostCreate` | project/src/app/schemas/schemas.py:21-29 | a post request defaults to no caption, no tags and unpublished |
| `Schemas.DefaultPostUpdate` | project/src/app/schemas/schemas.py:61-67 | an update request's `published` defaults to False; caption and tags are optional |
| `Text.Lower` | project/src/app/services/tag.py:28 | lower-casing keeps the length and maps each character to its lower-case form |
| `Text.LowerIdempotent` | project/src/app/services/tag.py:62 | lower-casing a slug again changes nothing, so looking up `name.lower()` lower-cases once |
| `Lists.PySlice` | project/src/app/services/post.py:117 | `s[start:stop]` for non-negative bounds has length max(0, min(stop, len) - start) and holds `s[start]`, `s[start + 1]`, ... in order |
| `Lists.OffsetLimit` | project/src/app/services/post.py:165 | `OFFSET skip LIMIT limit` returns the rows `s[skip]`, `s[skip + 1]`, ... in order, at most `limit` of them |
| `Lists.PySliceIsOffsetOfDifference` | project/src/app/services/post.py:89 | `posts[skip:limit]` is the page of `limit - skip` items after `skip`, not a page of `limit` items |
| `Sorting.SortLatest` | project/src/app/services/post.py:87 | newest-first sorting is a permutation, sorted by `created_on` descending, and stable: posts created at the same time keep their list order |
| `Sorting.SortByCreatedOnDesc` | project/src/app/services/post.py:115 | the in-place sort computes `SortLatest` |
| `Database.PostsWithTag` | project/src/app/models/tag.py:28-32 | `tag.posts` holds exactly the posts carrying the slug, each at most as often as in the table |
| `Database.WithoutTag` | project/src/app/services/tag.py:82-83 | deleting a tag drops its slug from every post and changes nothing else |
| `Database.Db.TagNamesUnique` | project/src/app/models/tag.py:21-22 | no two stored tags share a name, or even a lower-cased name |
| `Database.Db.SlugsAreLowerCase` | project/src/app/models/tag.py:20-21 | a stored slug is the name in lowercase: it holds no upper-case letter |
| `Database.Db.SlugsMeetMinLength` | project/src/app/schemas/schemas.py:8-15 | every stored tag name and slug has at least `TAG_MIN_LENGTH` characters |
| `Database.Db.Table` | project/src/app/models/post.py:9-49 | the posts table lists every stored post once, in insertion order |
| `TagService.LookupTag` | project/src/app/services/tag.py:28-31 | lookup finds a tag exactly when the lower-cased query is a slug |
| `TagService.GetTags` | project/src/app/services/tag.py:8-18 | the tags from row `skip` on, at most `limit` of them, in table order |
| `TagService.GetTagBySlug` | project/src/app/services/tag.py:21-31 | a tag exactly when the lower-cased query is a slug; its slug and lower-cased name equal the query |
| `TagService.CreateTag` | project/src/app/services/tag.py:34-50 | adds one tag named as asked, with slug `lower(name)` and creation time `now`; nothing else changes |
| `TagService.ResolveTag` | project/src/app/services/tag.py:61-67 | reuses the tag with that slug unchanged, or creates it; only a created tag is appended to the tags table |
| `TagService.CreateTagFromPost` | project/src/app/services/tag.py:53-69 | one tag per name in order, the i-th with slug `lower(tags[i].name)`; existing tags unchanged; a new slug is created once, by its first name, at `now`; the tags table gains exactly the new slugs, once each, in the order they first appear |
| `TagService.DeleteTagBySlug` | project/src/app/services/tag.py:72-86 | True exactly when the lower-cased slug exists; then that tag is gone from the table and its order, the other tags keep their order, and no post keeps its slug; otherwise nothing changes |
| `PostFilters.TagRunningInTable` | project/src/app/services/post.py:106-112 | the tag loop keeps only table rows, none twice |
| `PostFilters.TagRunningNoneResolve` | project/src/app/services/post.py:106-112 | slugs naming no tag are skipped: if none names one, the result is empty |
| `PostFilters.TagRunningCarriesLast` | project/src/app/services/post.py:106-112 | every kept post carries the tag of the last slug that names one |
| `PostFilters.TagRunningComplete` | project/src/app/services/post.py:106-112 | a row carrying every requested known tag is kept |
| `PostFilters.TagRunningSound` | project/src/app/services/post.py:106-112 | without re-seeding, every kept post carries every requested known tag |
| `PostFilters.TagRunningExact` | project/src/app/services/post.py:106-112 | without re-seeding, the loop computes exactly the intersection of the known tags' posts |
| `PostFilters.ReseedExample` | project/src/app/services/post.py:112 | with tags aaa, bbb, ccc, the slugs [aaa, bbb, ccc] return the post tagged only ccc |
| `PostFilters.TagFilterInTable` | project/src/app/services/post.py:114-119 | the tag filter returns distinct table rows, newest first when `latest`, at most max(0, limit - skip) of them |
| `PostFilters.TagFilterNoneResolve` | project/src/app/services/post.py:106-119 | no known slug, no posts |
| `PostFilters.TagFilterCarriesLast` | project/src/app/services/post.py:106-119 | every returned post carries the last known requested tag |
| `PostFilters.TagFilterExact` | project/src/app/services/post.py:106-119 | on a first page holding the whole match, without re-seeding, the result holds exactly the rows carrying every known requested tag |
| `PostFilters.OwnedBy` | project/src/app/services/post.py:163 | the filter `owner_id == owner_id` keeps exactly that owner's rows |
| `PostFilters.OwnerPage` | project/src/app/services/post.py:149-170 | the owner's rows from position `skip` on, at most `limit`: in table order, or newest first when `latest`, so a first page holds the owner's newest rows; exact length; all of them on a first page large enough |
| `Sorting.SortedHeadNewest` | project/src/app/services/post.py:86-89 | a leading part of a newest-first list holds its newest posts |
| `PostFilters.OwnersPostsStep` | project/src/app/services/post.py:136-139 | each owner adds its own page, disjoint from the rows gathered so far |
| `PostFilters.OwnersPostsWhole` | project/src/app/services/post.py:134-139 | when no owner overflows a first page, the owner filter gathers exactly the requested owners' rows |
| `PostFilters.PageOfGathered` | project/src/app/services/post.py:141-146 | sorting and cutting the gathered rows yields the `[skip:limit]` cut of a list holding each gathered row once, newest first when `latest`, so a first page holds the newest gathered rows |
| `PostFilters.Combine` | project/src/app/services/post.py:81-84 | the intersection holds exactly the posts in both lists, in the order of the strictly shorter one, else of the owners list |
| `PostFilters.CombinedPage` | project/src/app/services/post.py:86-91 | the combined page holds distinct posts of both lists, sorted when `latest`, at most max(0, limit - skip) |
| `PostFilters.CombinedExact` | project/src/app/services/post.py:62-91 | on a first page large enough for the whole match, with no re-seeding, the combined filter returns exactly the requested owners' rows that carry every known requested tag |
| `PostFilters.AllPostsPage` | project/src/app/services/post.py:51-59 | without filters: the table rows from `skip` on, or newest first when `latest` (a first page then holds the newest rows), distinct, with the offset/limit length |
| `PostService.GetPostById` | project/src/app/services/post.py:173-182 | the stored post with that id, exactly when there is one |
| `PostService.GetPostsByOwner` | project/src/app/services/post.py:149-170 | the owner's rows from position `skip` on, at most `limit`: in table order, or newest first when `latest`; exact length; all of them on a first page large enough |
| `PostService.GetPostsByTags` | project/src/app/services/post.py:94-119 | the loop computes the tag filter |
| `PostService.GetPostsByOwners` | project/src/app/services/post.py:122-146 | the result is the `[skip:limit]` cut of a list holding each row of the requested owners' pages once, newest first when `latest` |
| `PostService.GetPostsByOwnersAndTags` | project/src/app/services/post.py:62-91 | the cut of the intersection of the tag result with the owner result; on a first page large enough, exactly the requested owners' rows carrying every known requested tag |
| `PostService.GetPosts` | project/src/app/services/post.py:26-59 | dispatch: both filters to the combined filter, owners only, tags only, or the whole table offset/limited |
| `PostService.NewPostFields` | project/src/app/services/post.py:216-226 | a new post has created_on = updated_on = now, published_on = now if published else the sentinel, no likes, no comments |
| `PostService.AddPost` | project/src/app/services/post.py:228-229 | adding a post appends it to the table and keeps the tables valid |
| `PostService.SetPost` | project/src/app/services/post.py:236-240 | rewriting a stored post replaces only that row |
| `PostService.ImagePath` | project/src/app/services/post.py:232 | the image is stored under the images directory as `{id}_{filename}` |
| `PostService.CreatePost` | project/src/app/services/post.py:203-243 | tag names resolved only when there are some; each new tag row has the name of the first entry with its slug and created_on = now, appended in first-appearance order; existing tags unchanged; the record is appended, and its image ends as `{dir}/{id}_{filename}` |
| `PostService.ApplyLike` | project/src/app/services/post.py:256 | a like adds one, an unlike subtracts one, nothing else changes |
| `PostService.LikeUnlikePost` | project/src/app/services/post.py:246-260 | the counter of the post with that id moves by one; an unknown id changes nothing and reads back None |
| `PostService.PublishGuard` | project/src/app/services/post.py:284 | for a boolean request the guard holds exactly when the post is unpublished; a missing value raises TypeError |
| `PostService.ApplyUpdate` | project/src/app/services/post.py:271-293 | caption and tags replaced when given; publication only false to true, with published_on = now; updated_on = now exactly when something changed; TypeError exactly when `published` is None |
| `PostService.UpdateKeepsTimeline` | project/src/app/services/post.py:284-293 | an update keeps the dates of a post in order |
| `PostService.LikeKeepsTimeline` | project/src/app/services/post.py:254-257 | likes leave the dates alone |
| `PostService.UpdatePost` | project/src/app/services/post.py:263-296 | the step-by-step update computes `ApplyUpdate`; on TypeError the post is not written but the tags created stay; with new tags, each new row has the name of the first entry with its slug and created_on = now, appended in first-appearance order; without, the tags table is unchanged |
| `PostService.DeletePost` | project/src/app/services/post.py:299-309 | removes the post from the table and its order, the other posts keeping theirs; answers True; leaves the tags |
| `PostRoutes.FetchPosts` | project/src/app/routes/posts.py:30-54 | `get_posts` with `latest` False |
| `PostRoutes.FetchLatestPosts` | project/src/app/routes/posts.py:57-82 | `get_posts` with `latest` True: newest first |
| `PostRoutes.GetPost` | project/src/app/routes/posts.py:85-101 | exactly the stored post, else NotFound |
| `PostRoutes.GuardedLike` | project/src/app/routes/posts.py:197-201 | an unlike at zero likes or fewer changes nothing; a count that was not negative stays not negative |
| `PostRoutes.LikeOrUnlikePost` | project/src/app/routes/posts.py:177-201 | NotFound and no change for an unknown id; otherwise the guarded like is stored and returned |
| `PostRoutes.LikeRunNonNegative` | project/src/app/routes/posts.py:197-201 | no sequence of likes and unlikes makes the count negative |
| `PostRoutes.LikeRunCounts` | project/src/app/routes/posts.py:197-201 | likes then unlikes, never unliking at zero, leave likes minus unlikes |
| `PostRoutes.NineLikesTwoUnlikes` | project/tests/posts.py:186-206 | nine likes then two unlikes leave seven |
| `PostRoutes.LikeScenario` | project/tests/posts.py:186-206 | the same through the route on a stored post |
| `PostRoutes.SkipsOnlyTypeError` | project/src/app/routes/posts.py:221-223 | the shortcut for a published post changes the outcome only where the service would raise TypeError |
| `PostRoutes.UpdatePost` | project/src/app/routes/posts.py:204-225 | NotFound; a published post with no caption and no tags returned unchanged without calling the service; otherwise the service's update, or ServerError on TypeError; the tags table gains exactly the requested new slugs, in first-appearance order, each named by the first entry with its slug and created at `now` |
| `PostRoutes.DeletePost` | project/src/app/routes/posts.py:228-255 | NotFound and no change for an unknown id; otherwise the post is gone from the table and its order and the success message is returned; tags unchanged |
| `TagRoutes.CreateTag` | project/src/app/routes/tags.py:35-51 | Conflict and no change when `lower(name)` is a slug; otherwise exactly one new tag with that slug, appended to the tags table |
| `TagRoutes.GetTag` | project/src/app/routes/tags.py:54-76 | the tag for the lower-cased slug, else NotFound |
| `TagRoutes.DeleteTag` | project/src/app/routes/tags.py:79-104 | NotFound and no change for an unknown slug; otherwise the tag is gone from the table and its order, every post loses its slug, and the success message is returned |
| `TagRoutes.TeddyBearSlug` | project/tests/tags.py:37-38 | "Teddy Bear" lower-cases to "teddy bear" |
| `TagRoutes.TeddyBearScenario` | project/tests/tags.py:48-89 | "Teddy Bear" gets slug "teddy bear", is found there with the same id, is deleted with the success message, then is not found |

## Left out

- File upload (`save_upload_file`) and writing the image are I/O. Only the resulting
  image path is kept, and the images directory from the environment is a parameter.
- The session (`commit`, `refresh`, rollback on close), async execution and engine setup
  are replaced by the in-memory `Db`.
- `datetime.now()` becomes the parameter `now`. One call shares it between the tags it
  creates and the post.
- Unicode `str.lower` is replaced by ASCII lower-casing.
- Post ids are UUIDs drawn by the database. They are modelled as strings passed in
  fresh. Tag ids are a counter instead of random UUIDs.
- `PostService.GetPostsByOwners`: the set of owner ids is visited in first-request
  order. Python's set order is unspecified, so the contract states that the result is the
  cut of some list holding each gathered row once, newest first when `latest`. For an
  unsorted result it does not say which order that list has.
- `PostService.GetPostsByOwnersAndTags`: the owner result it intersects with is any page
  that meets the owner filter's contract. So, for an unsorted result, its order is stated
  only up to the order of the set of owner ids.
- `Sorting.SortLatest`: the order of posts with equal `created_on` under
  `ORDER BY created_on DESC` is up to the database. It is modelled by the same stable
  sort as `list.sort`.
- Row order of queries without `ORDER BY` (the unsorted listings, `get_tags`, `tag.posts`)
  is up to the database. The model fixes it as insertion order and keeps it when a row is
  updated.
- `likes` is an SQL integer column. The model's counter is unbounded, so the database's
  overflow error is not modelled.
- `skip` and `limit` are natural numbers. The database rejects a negative
  `OFFSET`/`LIMIT`, and a negative bound in the filters is not modelled.
- `PostService.UpdatePost`: on TypeError the post is left as stored. In the source, a
  tag created during the same call commits the session, and that commit also flushes a
  caption change made earlier in the call. This is not modelled.
- `PostRoutes.UpdatePost`: for the same reason, its ServerError branch leaves the post as
  stored, although the source may already have flushed a new caption.
- `PostService.UpdatePost` and `PostService.DeletePost` require the post to exist. The
  source would raise on a missing post, and its routes check first.
- `TagService.CreateTag` requires the slug to be free. The unique column would reject a
  duplicate, and its callers check first.
- `DeleteFailed` never arises in `PostRoutes.DeletePost` or `TagRoutes.DeleteTag`. Both
  services answer True whenever the row exists, so the answer is kept only as a branch.
- Comment routes (add, remove, remove all) are left out. Their service functions are not
  defined in the source, and the posts table has no comments column. `comments` is
  always empty in the model.
- Ownership checks (403) and an `owner_id > 0` rule are not implemented by the source
  routes, so they are not modelled.
- The `create_post` route calls the service without the uploaded file. Only the
  service's `create_post` is modelled.
- Request validation by the web framework (422 errors) is left out. Valid requests
  (`ValidTagCreate`, `ValidPostCreate`, `ValidPostUpdate`) are preconditions.
- The error detail strings are left out. `fetch_tags` adds nothing to `get_tags`.
- The tags routes import their message constants from `important_constants`, which is
  not part of this model. The values are taken from
  `routes/shared_constants_and_methods.py`.
- A name repeated in one request gives a post the same slug twice. The association table
  would refuse the duplicate pair; the model keeps the list as resolved.
- `latest` is a boolean. `None`, which the source allows, behaves like False there.
