/** The four document types of the store (the Mongoose schemas for User,
    Monument, Category and Image) and the table-level meaning of the store calls
    the services make on them. */
module Records {
  import opened Wrappers
  import opened Tables

  /** A category: a province name or a free-form tag, with the ids of its member monuments. */
  datatype Category = Category(id: Id, title: string, monuments: seq<Id>)

  /** An image record: its file name or generated default name, the hosted URL,
      and the monument it belongs to (set in a second pass, so it may be absent). */
  datatype Image = Image(id: Id, title: string, imageUrl: string, monument: Option<Id>)

  datatype Coordinates = Coordinates(latitude: real, longitude: real)

  /** A monument. An entry of `categories` can be `None`: the province step of
      monument creation can hand back `undefined`, which is pushed as is. */
  datatype Monument = Monument(
    id: Id,
    title: string,
    description: string,
    user: Option<Id>,
    coordinates: Coordinates,
    categories: seq<Option<Id>>,
    images: seq<Id>,
    province: string,
    county: string)

  /** A `lastUpdated` field: stored `null` (sign-up writes that), missing, or a time in milliseconds. */
  datatype Stamp = Null | Undefined | Millis(ms: int)

  datatype User = User(
    id: Id,
    firstName: string,
    lastName: string,
    email: string,
    password: string,
    lastUpdated: Stamp,
    lastLogin: Option<string>,
    userType: Option<string>,
    numberOfRecords: int)

  function CategoryKey(c: Category): Id { c.id }
  function ImageKey(i: Image): Id { i.id }
  function CategoryTitle(c: Category): string { c.title }
  function ImageTitle(i: Image): string { i.title }
  function MonumentKey(m: Monument): Id { m.id }
  function UserKey(u: User): Id { u.id }

  // ----- Categories -----

  /** The four fixed province names. */
  const ProvinceTitles: seq<string> := ["Munster", "Leinster", "Connacht", "Ulster"]

  predicate IsProvince(title: string) {
    title in ProvinceTitles
  }

  function TitleIs(t: string): Category -> bool {
    (c: Category) => c.title == t
  }

  /** `Category.find({ title: t })`. */
  function WithTitle(cats: seq<Category>, t: string): seq<Category> {
    Filter(cats, TitleIs(t))
  }

  /** The category with one more member appended. */
  function Pushed(c: Category, m: Id): Category {
    c.(monuments := c.monuments + [m])
  }

  /** A member list without any occurrence of `m`. */
  function Without(s: seq<Id>, m: Id): (r: seq<Id>)
    ensures m !in r
    ensures forall x :: x != m ==> multiset(r)[x] == multiset(s)[x]
    ensures multiset(r)[m] == 0
    decreases |s|
  {
    if s == [] then []
    else
      assert s == s[..|s| - 1] + [s[|s| - 1]];
      Without(s[..|s| - 1], m) + (if s[|s| - 1] == m then [] else [s[|s| - 1]])
  }

  /** `Category.updateMany({ $pull: { monuments: { $in: [m] } } })`: the one
      argument is the update, so it applies to every category. */
  function PullEverywhere(cats: seq<Category>, m: Id): (r: seq<Category>)
    ensures |r| == |cats|
    ensures forall i :: 0 <= i < |cats| ==>
      && r[i].id == cats[i].id
      && r[i].title == cats[i].title
      && m !in r[i].monuments
      && (forall x :: x != m ==> multiset(r[i].monuments)[x] == multiset(cats[i].monuments)[x])
  {
    seq(|cats|, i requires 0 <= i < |cats| => cats[i].(monuments := Without(cats[i].monuments, m)))
  }

  /** `doc.monuments.push(m); doc.save()` on a loaded category: the stored category with that id gains `m`. */
  function PushById(cats: seq<Category>, id: Id, m: Id): (r: seq<Category>)
    ensures |r| == |cats|
    ensures forall i :: 0 <= i < |cats| ==> r[i] == if cats[i].id == id then Pushed(cats[i], m) else cats[i]
    ensures Keys(r, CategoryKey) == Keys(cats, CategoryKey)
    ensures Column(r, CategoryTitle) == Column(cats, CategoryTitle)
  {
    var r := seq(|cats|, i requires 0 <= i < |cats| => if cats[i].id == id then Pushed(cats[i], m) else cats[i]);
    assert forall i :: 0 <= i < |cats| ==> Keys(r, CategoryKey)[i] == Keys(cats, CategoryKey)[i];
    assert forall i :: 0 <= i < |cats| ==> Column(r, CategoryTitle)[i] == Column(cats, CategoryTitle)[i];
    r
  }

  /** Index `i` holds the first category titled `t`. */
  predicate FirstTitledAt(cats: seq<Category>, i: nat, t: string)
    requires i < |cats|
  {
    cats[i].title == t && forall j :: 0 <= j < i ==> cats[j].title != t
  }

  /** `Category.updateOne({ title: t }, { $push: { monuments: m } })`: the first
      category titled `t` gains `m`; with no such category nothing changes. */
  function PushFirstTitled(cats: seq<Category>, t: string, m: Id): (r: seq<Category>)
    ensures |r| == |cats|
    ensures forall i :: 0 <= i < |cats| ==>
      r[i] == if FirstTitledAt(cats, i, t) then Pushed(cats[i], m) else cats[i]
  {
    match FirstIndex(cats, TitleIs(t))
    case None => cats
    case Some(k) =>
      assert forall i :: k < i < |cats| ==> !FirstTitledAt(cats, i, t) by {
        forall i | k < i < |cats| ensures !FirstTitledAt(cats, i, t) {
          assert cats[k].title == t;
        }
      }
      cats[k := Pushed(cats[k], m)]
  }

  // ----- Images -----

  /** `Image.updateMany({ title: { $in: titles } }, { $set: { monument: m } })`. */
  function LinkByTitle(imgs: seq<Image>, titles: seq<string>, m: Id): (r: seq<Image>)
    ensures |r| == |imgs|
    ensures forall i :: 0 <= i < |imgs| ==>
      r[i] == if imgs[i].title in titles then imgs[i].(monument := Some(m)) else imgs[i]
    ensures Keys(r, ImageKey) == Keys(imgs, ImageKey)
    ensures Column(r, ImageTitle) == Column(imgs, ImageTitle)
  {
    var r := seq(|imgs|, i requires 0 <= i < |imgs| =>
      if imgs[i].title in titles then imgs[i].(monument := Some(m)) else imgs[i]);
    assert forall i :: 0 <= i < |imgs| ==> Keys(r, ImageKey)[i] == Keys(imgs, ImageKey)[i];
    assert forall i :: 0 <= i < |imgs| ==> Column(r, ImageTitle)[i] == Column(imgs, ImageTitle)[i];
    r
  }

  function NotOf(m: Id): Image -> bool {
    (i: Image) => i.monument != Some(m)
  }

  /** `Image.deleteMany({ monument: m })`: the images that remain. */
  function DeleteByMonument(imgs: seq<Image>, m: Id): seq<Image> {
    Filter(imgs, NotOf(m))
  }

  // ----- Monuments -----

  /** `Monument.updateOne({ _id: id }, { images, categories })`. */
  function SetLinks(ms: seq<Monument>, id: Id, images: seq<Id>, categories: seq<Option<Id>>): (r: seq<Monument>)
    ensures |r| == |ms|
    ensures forall i :: 0 <= i < |ms| ==>
      r[i] == if ms[i].id == id then ms[i].(images := images, categories := categories) else ms[i]
    ensures Keys(r, MonumentKey) == Keys(ms, MonumentKey)
  {
    var r := seq(|ms|, i requires 0 <= i < |ms| =>
      if ms[i].id == id then ms[i].(images := images, categories := categories) else ms[i]);
    assert forall i :: 0 <= i < |ms| ==> Keys(r, MonumentKey)[i] == Keys(ms, MonumentKey)[i];
    r
  }
}
