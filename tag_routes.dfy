/** The guards of the tag routes: slug conflicts on creation, and unknown slugs on lookup
    and deletion. */
module TagRoutes {
  import opened Schemas
  import opened Text
  import opened Database
  import opened Responses
  import opened Lists
  import TagService

  /** `create_tag`: `Conflict` when the lower-cased name is already a slug, otherwise
      exactly one new tag. */
  method CreateTag(db: Db, tag: TagCreate, now: DateTime) returns (r: Response<Tag>)
    requires db.Valid() && ValidTagCreate(tag)
    modifies db
    ensures db.Valid()
    ensures Lower(tag.name) in old(db.tags) ==>
              r == Conflict && db.tags == old(db.tags) && db.tagOrder == old(db.tagOrder)
    ensures Lower(tag.name) !in old(db.tags) ==>
              && r.Success?
              && r.value.name == tag.name && r.value.slug == Lower(tag.name) && r.value.createdOn == now
              && db.tags == old(db.tags)[r.value.slug := r.value]
              && |db.tags| == |old(db.tags)| + 1
              && db.tagOrder == old(db.tagOrder) + [r.value.slug]
    ensures db.posts == old(db.posts) && db.postOrder == old(db.postOrder)
  {
    LowerIdempotent(tag.name);
    var dbTag := TagService.GetTagBySlug(db, Lower(tag.name));
    if dbTag.Some? {
      return Conflict;
    }
    var created := TagService.CreateTag(db, tag, now);
    r := Success(created);
  }

  /** `get_tag`: the tag whose slug is the lower-cased query, or `NotFound`. */
  function GetTag(db: Db, tagSlug: string): (r: Response<Tag>)
    reads db
    requires db.Valid()
    ensures r.Success? <==> Lower(tagSlug) in db.tags
    ensures r.Success? ==> r.value == db.tags[Lower(tagSlug)] && r.value.slug == Lower(tagSlug)
    ensures !r.Success? ==> r == NotFound
  {
    match TagService.GetTagBySlug(db, tagSlug)
    case None => NotFound
    case Some(t) => Success(t)
  }

  /** `delete_tag`: `NotFound` and no change for an unknown slug, otherwise the tag is gone
      and the success message is returned. The service answers True whenever the tag
      exists, so `DeleteFailed` does not arise. */
  method DeleteTag(db: Db, tagSlug: string) returns (r: Response<Message>)
    requires db.Valid()
    modifies db
    ensures db.Valid()
    ensures Lower(tagSlug) !in old(db.tags) ==>
              && r == NotFound && db.tags == old(db.tags) && db.posts == old(db.posts)
              && db.tagOrder == old(db.tagOrder)
    ensures Lower(tagSlug) in old(db.tags) ==>
              && r == Success(TAG_DELETED) && db.tags == old(db.tags) - {Lower(tagSlug)}
              && db.posts == WithoutTag(old(db.posts), Lower(tagSlug))
              && db.tagOrder == Remove(old(db.tagOrder), Lower(tagSlug))
    ensures Lower(tagSlug) !in db.tags
    ensures db.postOrder == old(db.postOrder)
  {
    var dbTag := TagService.GetTagBySlug(db, tagSlug);
    if dbTag.None? {
      return NotFound;
    }
    var ok := TagService.DeleteTagBySlug(db, tagSlug);
    r := if ok then Success(TAG_DELETED) else DeleteFailed;
  }

  lemma TeddyBearSlug()
    ensures Lower("Teddy Bear") == "teddy bear" && Lower("teddy bear") == "teddy bear"
  {
    var r := Lower("Teddy Bear");
    assert |r| == 10;
    assert r[0] == LowerChar('T') == 't';
    assert r[6] == LowerChar('B') == 'b';
    assert r == "teddy bear";
    LowerIdempotent("Teddy Bear");
  }

  /** A tag named "Teddy Bear" is created with slug "teddy bear", is found under that slug
      with the same id, is deleted with the success message, and is not found afterwards. */
  method TeddyBearScenario(db: Db, now: DateTime)
    returns (created: Response<Tag>, fetched: Response<Tag>, deleted: Response<Message>,
             fetchedAfter: Response<Tag>)
    requires db.Valid() && "teddy bear" !in db.tags
    modifies db
    ensures created.Success? && created.value.name == "Teddy Bear" && created.value.slug == "teddy bear"
    ensures fetched.Success? && fetched.value.id == created.value.id
    ensures deleted == Success(TAG_DELETED)
    ensures fetchedAfter == NotFound
  {
    TeddyBearSlug();
    created := CreateTag(db, TagCreate("Teddy Bear"), now);
    fetched := GetTag(db, "teddy bear");
    deleted := DeleteTag(db, "teddy bear");
    fetchedAfter := GetTag(db, "teddy bear");
  }
}
