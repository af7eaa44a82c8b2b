/** The tag service: listing, lookup by slug, creation, resolution of the tag names of a
    post, and deletion. Slugs are lower-cased names; the table is keyed by them. */
module TagService {
  import opened Wrappers
  import opened Schemas
  import opened Text
  import opened Lists
  import opened Database

  /** The row a slug names, compared after lower-casing the query. */
  function LookupTag(table: map<string, Tag>, tagSlug: string): (r: Option<Tag>)
    ensures r.Some? <==> Lower(tagSlug) in table
    ensures r.Some? ==> r.value == table[Lower(tagSlug)]
  {
    var slug := Lower(tagSlug);
    if slug in table then Some(table[slug]) else None
  }

  /** `get_tags`: the tags table from row `skip` on, at most `limit` rows. */
  function GetTags(db: Db, skip: nat, limit: nat): (r: seq<Tag>)
    reads db
    requires db.Valid()
    ensures |r| == Max(0, Min(skip + limit, |db.tagOrder|) - skip)
    ensures forall i :: 0 <= i < |r| ==> r[i] == db.tags[db.tagOrder[skip + i]]
  {
    OffsetLimit(db.TagTable(), skip, limit)
  }

  /** `get_tag_by_slug`: the tag whose slug is the lower-cased query, if there is one. */
  function GetTagBySlug(db: Db, tagSlug: string): (r: Option<Tag>)
    reads db
    requires db.Valid()
    ensures r.Some? <==> Lower(tagSlug) in db.tags
    ensures r.Some? ==> r.value == db.tags[Lower(tagSlug)]
    ensures r.Some? ==> r.value.slug == Lower(tagSlug) && Lower(r.value.name) == Lower(tagSlug)
  {
    LookupTag(db.tags, tagSlug)
  }

  /** `create_tag`: a new row named as requested, with the lower-cased name as slug.
      The unique slug column means callers only call it for a slug not yet taken. */
  method CreateTag(db: Db, tag: TagCreate, now: DateTime) returns (t: Tag)
    requires db.Valid() && ValidTagCreate(tag)
    requires Lower(tag.name) !in db.tags
    modifies db
    ensures db.Valid()
    ensures t.name == tag.name && t.slug == Lower(tag.name) && t.createdOn == now
    ensures db.tags == old(db.tags)[t.slug := t]
    ensures db.tagOrder == old(db.tagOrder) + [t.slug]
    ensures db.posts == old(db.posts) && db.postOrder == old(db.postOrder)
  {
    t := Tag(db.nextTagId, tag.name, Lower(tag.name), now);
    db.tags := db.tags[t.slug := t];
    db.tagOrder := db.tagOrder + [t.slug];
    db.nextTagId := db.nextTagId + 1;
  }

  /** The slugs the names of `tags` resolve to, in order. */
  function Slugs(tags: seq<TagCreate>): (r: seq<string>)
    ensures |r| == |tags|
    ensures forall i :: 0 <= i < |tags| ==> r[i] == Lower(tags[i].name)
  {
    seq(|tags|, i requires 0 <= i < |tags| => Lower(tags[i].name))
  }

  /** `i` is the first position in `tags` whose name lowers to `slug`. */
  predicate FirstWithSlug(tags: seq<TagCreate>, i: int, slug: string)
  {
    && 0 <= i < |tags|
    && Lower(tags[i].name) == slug
    && forall k :: 0 <= k < i ==> Lower(tags[k].name) != slug
  }

  /** One step of `create_tag_from_post`: the tag with the name's slug, created if absent. */
  method ResolveTag(db: Db, tag: TagCreate, now: DateTime) returns (t: Tag)
    requires db.Valid() && ValidTagCreate(tag)
    modifies db
    ensures db.Valid()
    ensures t.slug == Lower(tag.name) && t.slug in db.tags && db.tags[t.slug] == t
    ensures db.tags == old(db.tags)[t.slug := t]
    ensures t.slug in old(db.tags) ==> old(db.tags)[t.slug] == t
    ensures t.slug !in old(db.tags) ==> t.name == tag.name && t.createdOn == now
    ensures db.tagOrder == if t.slug in old(db.tags) then old(db.tagOrder) else old(db.tagOrder) + [t.slug]
    ensures db.posts == old(db.posts) && db.postOrder == old(db.postOrder)
  {
    LowerIdempotent(tag.name);
    var dbTag := GetTagBySlug(db, Lower(tag.name));
    if dbTag.None? {
      t := CreateTag(db, tag, now);
    } else {
      t := dbTag.value;
    }
  }

  /** The slugs of `slugs` not in `known`, each once, in the order of their first
      occurrence: the rows a run of `create_tag_from_post` appends to the tags table. */
  function Fresh(known: set<string>, slugs: seq<string>): (r: seq<string>)
    ensures forall x :: x in r <==> x in slugs && x !in known
    ensures Distinct(r)
    decreases |slugs|
  {
    if slugs == [] then []
    else
      var f := Fresh(known, slugs[..|slugs| - 1]);
      var last := slugs[|slugs| - 1];
      assert slugs == slugs[..|slugs| - 1] + [last];
      if last in known || last in f then f
      else
        assert forall i :: 0 <= i < |f| ==> (f + [last])[i] == f[i];
        f + [last]
  }

  /** `Fresh` grows by the next slug exactly when that slug is neither known nor already added. */
  lemma FreshSnoc(known: set<string>, slugs: seq<string>, i: nat)
    requires i < |slugs|
    ensures Fresh(known, slugs[..i + 1]) ==
              if slugs[i] in known || slugs[i] in Fresh(known, slugs[..i]) then Fresh(known, slugs[..i])
              else Fresh(known, slugs[..i]) + [slugs[i]]
  {
    assert slugs[..i + 1][..i] == slugs[..i];
  }

  /** One resolved name extends the order of tags by its slug exactly when it created a tag. */
  lemma FreshOrderStep(base: seq<string>, known: set<string>, slugs: seq<string>, i: nat,
                       existed: bool, before: seq<string>, after: seq<string>)
    requires i < |slugs|
    requires before == base + Fresh(known, slugs[..i])
    requires existed <==> slugs[i] in known || slugs[i] in slugs[..i]
    requires after == if existed then before else before + [slugs[i]]
    ensures after == base + Fresh(known, slugs[..i + 1])
  {
    FreshSnoc(known, slugs, i);
  }

  /** Every tag in `after` but not in `before` was created at `now` under the name of the
      first entry of `tags` with its slug. */
  ghost predicate NewTagsFrom(before: map<string, Tag>, after: map<string, Tag>, tags: seq<TagCreate>, now: DateTime)
  {
    forall s :: s in after && s !in before ==>
      after[s].createdOn == now && exists i :: FirstWithSlug(tags, i, s) && after[s].name == tags[i].name
  }

  /** What `create_tag_from_post` has done once the first `i` names are resolved:
      `rsl` holds their tags, tags that existed in `before` are untouched, and each new
      tag was created by the first name with its slug. */
  ghost predicate Resolved(before: map<string, Tag>, after: map<string, Tag>, first: map<string, nat>,
                           tags: seq<TagCreate>, rsl: seq<Tag>, i: nat, now: DateTime)
  {
    && i <= |tags|
    && |rsl| == i
    && (forall k :: 0 <= k < i ==>
          rsl[k].slug == Lower(tags[k].name) && rsl[k].slug in after && rsl[k] == after[rsl[k].slug])
    && (forall s :: s in before ==> s in after && after[s] == before[s])
    && (forall s :: s in after <==> s in before || s in Slugs(tags)[..i])
    && (forall s :: s in after && s !in before ==>
          s in first && FirstWithSlug(tags, first[s], s)
          && after[s].name == tags[first[s]].name && after[s].createdOn == now)
  }

  lemma ResolvedStep(before: map<string, Tag>, mid: map<string, Tag>, after: map<string, Tag>,
                     first: map<string, nat>, tags: seq<TagCreate>, rsl: seq<Tag>, i: nat,
                     now: DateTime, t: Tag)
    requires Resolved(before, mid, first, tags, rsl, i, now) && i < |tags|
    requires t.slug == Lower(tags[i].name) && after == mid[t.slug := t]
    requires t.slug in mid ==> mid[t.slug] == t
    requires t.slug !in mid ==> t.name == tags[i].name && t.createdOn == now
    ensures Resolved(before, after, if t.slug in mid then first else first[t.slug := i],
                     tags, rsl + [t], i + 1, now)
  {
    var first' := if t.slug in mid then first else first[t.slug := i];
    var rsl' := rsl + [t];
    var slugs := Slugs(tags);
    assert slugs[..i + 1] == slugs[..i] + [t.slug];
    forall k | 0 <= k < i + 1
      ensures rsl'[k].slug == Lower(tags[k].name) && rsl'[k].slug in after && rsl'[k] == after[rsl'[k].slug]
    {
      if k < i {
        assert rsl'[k] == rsl[k];
      }
    }
    forall s | s in before ensures s in after && after[s] == before[s] {
      assert s in mid;
    }
    forall s ensures s in after <==> s in before || s in slugs[..i + 1] {
      assert s in slugs[..i + 1] <==> s in slugs[..i] || s == t.slug;
    }
    if t.slug !in mid {
      FirstNewSlug(before, mid, tags, i);
    }
    NewTagStep(before, mid, after, first, tags, i, now, t);
  }

  /** A slug that is neither stored before nor among the first `i` names first appears at `i`. */
  lemma FirstNewSlug(before: map<string, Tag>, mid: map<string, Tag>, tags: seq<TagCreate>, i: nat)
    requires i < |tags|
    requires forall s :: s in mid <==> s in before || s in Slugs(tags)[..i]
    requires Lower(tags[i].name) !in mid
    ensures FirstWithSlug(tags, i, Lower(tags[i].name))
  {
    forall k | 0 <= k < i ensures Lower(tags[k].name) != Lower(tags[i].name) {
      assert Slugs(tags)[..i][k] == Lower(tags[k].name);
    }
  }

  /** Resolving name `i` keeps every new tag traced to the first name with its slug. */
  lemma NewTagStep(before: map<string, Tag>, mid: map<string, Tag>, after: map<string, Tag>,
                   first: map<string, nat>, tags: seq<TagCreate>, i: nat, now: DateTime, t: Tag)
    requires forall s :: s in before ==> s in mid
    requires forall s :: s in mid && s !in before ==>
               s in first && FirstWithSlug(tags, first[s], s)
               && mid[s].name == tags[first[s]].name && mid[s].createdOn == now
    requires after == mid[t.slug := t]
    requires t.slug in mid ==> mid[t.slug] == t
    requires t.slug !in mid ==>
               i < |tags| && FirstWithSlug(tags, i, t.slug) && t.name == tags[i].name && t.createdOn == now
    ensures forall s :: s in after && s !in before ==>
              var first' := if t.slug in mid then first else first[t.slug := i];
              s in first' && FirstWithSlug(tags, first'[s], s)
              && after[s].name == tags[first'[s]].name && after[s].createdOn == now
  {
    var first' := if t.slug in mid then first else first[t.slug := i];
    forall s | s in after && s !in before
      ensures s in first' && FirstWithSlug(tags, first'[s], s)
      ensures after[s].name == tags[first'[s]].name && after[s].createdOn == now
    {
      if s != t.slug || t.slug in mid {
        assert s in mid;
      }
    }
  }

  /** `create_tag_from_post`: resolves each name in turn, reusing the tag with that slug
      or creating it, so a slug repeated in one call is created once, by its first name. */
  method CreateTagFromPost(db: Db, tags: seq<TagCreate>, now: DateTime) returns (rslTags: seq<Tag>)
    requires db.Valid() && ValidTagCreates(tags)
    modifies db
    ensures db.Valid()
    ensures |rslTags| == |tags|
    ensures forall i :: 0 <= i < |tags| ==>
              rslTags[i].slug == Lower(tags[i].name) && rslTags[i].slug in db.tags
              && rslTags[i] == db.tags[rslTags[i].slug]
    ensures forall s :: s in old(db.tags) ==> s in db.tags && db.tags[s] == old(db.tags)[s]
    ensures forall s :: s in db.tags <==> s in old(db.tags) || s in Slugs(tags)
    ensures NewTagsFrom(old(db.tags), db.tags, tags, now)
    ensures db.tagOrder == old(db.tagOrder) + Fresh(old(db.tags).Keys, Slugs(tags))
    ensures db.posts == old(db.posts) && db.postOrder == old(db.postOrder)
  {
    rslTags := [];
    ghost var first: map<string, nat> := map[];
    var i := 0;
    while i < |tags|
      invariant db.Valid()
      invariant Resolved(old(db.tags), db.tags, first, tags, rslTags, i, now)
      invariant db.tagOrder == old(db.tagOrder) + Fresh(old(db.tags).Keys, Slugs(tags)[..i])
      invariant db.posts == old(db.posts) && db.postOrder == old(db.postOrder)
    {
      ghost var mid := db.tags;
      ghost var orderBefore := db.tagOrder;
      var rslTag := ResolveTag(db, tags[i], now);
      FreshOrderStep(old(db.tagOrder), old(db.tags).Keys, Slugs(tags), i, rslTag.slug in mid,
                     orderBefore, db.tagOrder);
      ResolvedStep(old(db.tags), mid, db.tags, first, tags, rslTags, i, now, rslTag);
      if rslTag.slug !in mid {
        first := first[rslTag.slug := i];
      }
      rslTags := rslTags + [rslTag];
      i := i + 1;
    }
    assert Slugs(tags)[..i] == Slugs(tags);
    forall s | s in db.tags && s !in old(db.tags)
      ensures exists k :: FirstWithSlug(tags, k, s) && db.tags[s].name == tags[k].name
    {
      assert FirstWithSlug(tags, first[s], s);
    }
  }

  /** `delete_tag_by_slug`: removes the tag with the lower-cased slug, and with it the
      slug from every post; False (and no change) when there is no such tag. */
  method DeleteTagBySlug(db: Db, tagSlug: string) returns (ok: bool)
    requires db.Valid()
    modifies db
    ensures db.Valid()
    ensures ok <==> Lower(tagSlug) in old(db.tags)
    ensures db.tags == old(db.tags) - {Lower(tagSlug)}
    ensures db.tagOrder == if ok then Remove(old(db.tagOrder), Lower(tagSlug)) else old(db.tagOrder)
    ensures db.posts == if ok then WithoutTag(old(db.posts), Lower(tagSlug)) else old(db.posts)
    ensures db.postOrder == old(db.postOrder)
  {
    var slug := Lower(tagSlug);
    LowerIdempotent(tagSlug);
    var dbTag := GetTagBySlug(db, slug);
    if dbTag.None? {
      ok := false;
      return;
    }
    db.tags := db.tags - {slug};
    db.tagOrder := Remove(db.tagOrder, slug);
    db.posts := WithoutTag(db.posts, slug);
    ok := true;
  }
}
