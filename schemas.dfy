/** Record shapes and validation constants of the API: the request bodies (TagCreate,
    PostCreate, PostUpdate) and the stored records (Tag, Post). */
module Schemas {
  import opened Wrappers

  /** A naive `datetime`: calendar fields, compared through `Ticks`. */
  datatype DateTime = DateTime(year: int, month: int, day: int,
                               hour: int, minute: int, second: int, microsecond: int)

  /** An ordering key for well-formed dates (month 1-12, day 1-31, hour 0-23, ...):
      later dates have larger keys. */
  function Ticks(d: DateTime): int
  {
    ((((((d.year * 12 + (d.month - 1)) * 31 + (d.day - 1)) * 24 + d.hour) * 60
       + d.minute) * 60 + d.second) * 1000000 + d.microsecond)
  }

  /** The field ranges of a `datetime` (the day is bounded by 31 whatever the month). */
  predicate ValidDateTime(d: DateTime)
  {
    && 1 <= d.year <= 9999 && 1 <= d.month <= 12 && 1 <= d.day <= 31
    && 0 <= d.hour < 24 && 0 <= d.minute < 60 && 0 <= d.second < 60
    && 0 <= d.microsecond < 1000000
  }

  /** `a` comes strictly before `b`, comparing field by field from the year down. */
  predicate Before(a: DateTime, b: DateTime)
  {
    if a.year != b.year then a.year < b.year
    else if a.month != b.month then a.month < b.month
    else if a.day != b.day then a.day < b.day
    else if a.hour != b.hour then a.hour < b.hour
    else if a.minute != b.minute then a.minute < b.minute
    else if a.second != b.second then a.second < b.second
    else a.microsecond < b.microsecond
  }

  lemma {:induction false} MulAtLeast(k: nat, base: nat)
    requires k >= 1
    ensures k * base >= base
  {
    if k > 1 {
      MulAtLeast(k - 1, base);
      assert k * base == (k - 1) * base + base;
    }
  }

  /** The number `hi * base + lo` grows by at least `base` when `hi` does. */
  lemma HigherPart(hi: int, lo: int, hi': int, lo': int, base: int)
    requires 0 <= lo < base && 0 <= lo' < base && hi < hi'
    ensures hi * base + lo < hi' * base + lo'
  {
    var k := hi' - hi;
    MulAtLeast(k, base);
    assert hi' * base == hi * base + k * base;
  }

  /** One digit of a mixed-radix number: the higher part decides, then the digit. */
  lemma Digit(hi: int, lo: int, hi': int, lo': int, base: int)
    requires 0 <= lo < base && 0 <= lo' < base
    ensures hi * base + lo < hi' * base + lo' <==> hi < hi' || (hi == hi' && lo < lo')
    ensures hi * base + lo == hi' * base + lo' <==> hi == hi' && lo == lo'
  {
    if hi < hi' {
      HigherPart(hi, lo, hi', lo', base);
    } else if hi' < hi {
      HigherPart(hi', lo', hi, lo, base);
    }
  }

  /** On well-formed dates `Ticks` is an order key: a smaller key exactly when earlier. */
  lemma TicksOrder(a: DateTime, b: DateTime)
    requires ValidDateTime(a) && ValidDateTime(b)
    ensures Ticks(a) < Ticks(b) <==> Before(a, b)
    ensures Ticks(a) == Ticks(b) <==> a == b
  {
    var a1, b1 := a.year * 12 + (a.month - 1), b.year * 12 + (b.month - 1);
    var a2, b2 := a1 * 31 + (a.day - 1), b1 * 31 + (b.day - 1);
    var a3, b3 := a2 * 24 + a.hour, b2 * 24 + b.hour;
    var a4, b4 := a3 * 60 + a.minute, b3 * 60 + b.minute;
    var a5, b5 := a4 * 60 + a.second, b4 * 60 + b.second;
    Digit(a.year, a.month - 1, b.year, b.month - 1, 12);
    Digit(a1, a.day - 1, b1, b.day - 1, 31);
    Digit(a2, a.hour, b2, b.hour, 24);
    Digit(a3, a.minute, b3, b.minute, 60);
    Digit(a4, a.second, b4, b.second, 60);
    Digit(a5, a.microsecond, b5, b.microsecond, 1000000);
    assert Ticks(a) == a5 * 1000000 + a.microsecond && Ticks(b) == b5 * 1000000 + b.microsecond;
  }

  /** The sentinel `published_on` of a post that was never published: 0001-01-01 00:00:00. */
  const DEFAULT_DATETIME: DateTime := DateTime(1, 1, 1, 0, 0, 0, 0)

  /** The sentinel is the earliest well-formed date. */
  lemma DefaultIsEarliest(d: DateTime)
    requires ValidDateTime(d)
    ensures ValidDateTime(DEFAULT_DATETIME)
    ensures Ticks(DEFAULT_DATETIME) <= Ticks(d)
    ensures Ticks(DEFAULT_DATETIME) == Ticks(d) <==> d == DEFAULT_DATETIME
  {
    TicksOrder(d, DEFAULT_DATETIME);
  }

  /** Minimum length of a tag name. */
  const TAG_MIN_LENGTH: nat := 3

  /** Text form of a post's UUID primary key. */
  type PostId = string

  /** `TagBase` / `TagCreate`: the name a client asks for. */
  datatype TagCreate = TagCreate(name: string)

  predicate ValidTagName(name: string)
  {
    |name| >= TAG_MIN_LENGTH
  }

  /** What request validation accepts as a tag name. */
  predicate ValidTagCreate(t: TagCreate)
  {
    ValidTagName(t.name)
  }

  predicate ValidTagCreates(ts: seq<TagCreate>)
  {
    forall t <- ts :: ValidTagCreate(t)
  }

  /** A row of the tags table. The posts of a tag are derived from the posts table. */
  datatype Tag = Tag(id: nat, name: string, slug: string, createdOn: DateTime)

  /** `PostCreate`: the fields a client supplies for a new post. */
  datatype PostCreate = PostCreate(image: string, caption: Option<string>, tags: seq<TagCreate>,
                                   published: bool, ownerId: int)

  /** A PostCreate with every optional field at its default. */
  function DefaultPostCreate(image: string, ownerId: int): (r: PostCreate)
    ensures r.caption == None && r.tags == [] && !r.published
    ensures r.image == image && r.ownerId == ownerId
  {
    PostCreate(image, None, [], false, ownerId)
  }

  /** `PostUpdate`: `None` leaves caption or tags as they are; `published` may be absent. */
  datatype PostUpdate = PostUpdate(caption: Option<string>, tags: Option<seq<TagCreate>>,
                                   published: Option<bool>)

  /** A PostUpdate whose `published` is left at its default. */
  function DefaultPostUpdate(caption: Option<string>, tags: Option<seq<TagCreate>>): (r: PostUpdate)
    ensures r.published == Some(false)
    ensures r.caption == caption && r.tags == tags
  {
    PostUpdate(caption, tags, Some(false))
  }

  predicate ValidPostCreate(p: PostCreate)
  {
    ValidTagCreates(p.tags)
  }

  predicate ValidPostUpdate(u: PostUpdate)
  {
    u.tags.Some? ==> ValidTagCreates(u.tags.value)
  }

  /** A row of the posts table as the API returns it; `tags` holds the slugs of its tags. */
  datatype Post = Post(id: PostId, image: string, caption: Option<string>, tags: seq<string>,
                       likes: int, comments: seq<int>, published: bool, publishedOn: DateTime,
                       ownerId: int, createdOn: DateTime, updatedOn: DateTime)

  /** The `like_action` query parameter. */
  datatype LikeAction = Like | Unlike
}
