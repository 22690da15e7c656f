/** `updateSeededData` (app/models/db.js): after seeding, every seeded monument
    is given the ids of the images that point at it and of the categories that
    list it, and the store copy of the monument is updated with both lists. */
module SeedData {
  import opened Wrappers
  import opened Tables
  import opened Records
  import opened Store

  /** The ids of the images whose `monument` is `m`, in collection order. */
  function ImagesOf(imgs: seq<Image>, m: Id): seq<Id> {
    if imgs == [] then []
    else
      var last := imgs[|imgs| - 1];
      ImagesOf(imgs[..|imgs| - 1], m) + (if last.monument == Some(m) then [last.id] else [])
  }

  /** The ids of the categories whose non-empty member list includes `m`, in collection order. */
  function CategoriesOf(cats: seq<Category>, m: Id): seq<Option<Id>> {
    if cats == [] then []
    else
      var last := cats[|cats| - 1];
      CategoriesOf(cats[..|cats| - 1], m)
        + (if m in last.monuments && |last.monuments| > 0 then [Some(last.id)] else [])
  }

  /** A seeded monument once both inner loops have pushed onto its lists. */
  function Linked(m: Monument, imgs: seq<Image>, cats: seq<Category>): Monument {
    m.(images := m.images + ImagesOf(imgs, m.id), categories := m.categories + CategoriesOf(cats, m.id))
  }

  /** The monument table after one `Monument.updateOne` per seeded monument, in seeding order. */
  function Relinked(store: seq<Monument>, seeded: seq<Monument>, imgs: seq<Image>, cats: seq<Category>): seq<Monument> {
    if seeded == [] then store
    else
      var m := Linked(seeded[|seeded| - 1], imgs, cats);
      SetLinks(Relinked(store, seeded[..|seeded| - 1], imgs, cats), m.id, m.images, m.categories)
  }

  /** Every monument of the table back-linked. */
  function BackLinked(ms: seq<Monument>, imgs: seq<Image>, cats: seq<Category>): (r: seq<Monument>)
    ensures |r| == |ms| && forall i :: 0 <= i < |ms| ==> r[i] == Linked(ms[i], imgs, cats)
  {
    seq(|ms|, i requires 0 <= i < |ms| => Linked(ms[i], imgs, cats))
  }

  /** The loop of lines 36-41: one push per image pointing at the monument. */
  method CollectImages(m: Monument, images: seq<Image>) returns (ids: seq<Id>)
    ensures ids == m.images + ImagesOf(images, m.id)
  {
    ids := m.images;
    var imageIndex := 0;
    while imageIndex < |images|
      invariant 0 <= imageIndex <= |images|
      invariant ids == m.images + ImagesOf(images[..imageIndex], m.id)
    {
      assert images[..imageIndex + 1][..imageIndex] == images[..imageIndex];
      if images[imageIndex].monument == Some(m.id) {
        ids := ids + [images[imageIndex].id];
      }
      imageIndex := imageIndex + 1;
    }
    assert images[..imageIndex] == images;
  }

  /** The loop of lines 44-48: one push per category listing the monument. */
  method CollectCategories(m: Monument, categories: seq<Category>) returns (ids: seq<Option<Id>>)
    ensures ids == m.categories + CategoriesOf(categories, m.id)
  {
    ids := m.categories;
    var individualCategory := 0;
    while individualCategory < |categories|
      invariant 0 <= individualCategory <= |categories|
      invariant ids == m.categories + CategoriesOf(categories[..individualCategory], m.id)
    {
      assert categories[..individualCategory + 1][..individualCategory] == categories[..individualCategory];
      var c := categories[individualCategory];
      if m.id in c.monuments && |c.monuments| > 0 {
        ids := ids + [Some(c.id)];
      }
      individualCategory := individualCategory + 1;
    }
    assert categories[..individualCategory] == categories;
  }

  /** Lines 30-58: the outer loop over the seeded monuments. */
  method UpdateSeededData(db: Database, monuments: seq<Monument>, categories: seq<Category>, images: seq<Image>)
    requires db.Valid()
    modifies db`monuments
    ensures db.Valid()
    ensures db.monuments == Relinked(old(db.monuments), monuments, images, categories)
  {
    ghost var store := db.monuments;
    var index := 0;
    while index < |monuments|
      invariant 0 <= index <= |monuments|
      invariant db.Valid()
      invariant db.monuments == Relinked(store, monuments[..index], images, categories)
    {
      assert monuments[..index + 1][..index] == monuments[..index];
      var m := monuments[index];
      var imageIds := CollectImages(m, images);
      var categoryIds := CollectCategories(m, categories);
      db.UpdateMonumentLinks(m.id, imageIds, categoryIds);
      index := index + 1;
    }
    assert monuments[..index] == monuments;
  }

  /** An image id is collected exactly when that image points at the monument. */
  lemma {:induction false} ImagesOfMembers(imgs: seq<Image>, m: Id, x: Id)
    ensures x in ImagesOf(imgs, m) <==> exists i :: 0 <= i < |imgs| && imgs[i].id == x && imgs[i].monument == Some(m)
  {
    if imgs != [] {
      var init := imgs[..|imgs| - 1];
      ImagesOfMembers(init, m, x);
      assert forall i :: 0 <= i < |init| ==> init[i] == imgs[i];
    }
  }

  /** A category id is collected exactly when that category lists the monument;
      the length test of line 45 adds nothing to the membership test. */
  lemma {:induction false} CategoriesOfMembers(cats: seq<Category>, m: Id, x: Option<Id>)
    ensures x in CategoriesOf(cats, m) <==> exists i :: 0 <= i < |cats| && x == Some(cats[i].id) && m in cats[i].monuments
  {
    if cats != [] {
      var init := cats[..|cats| - 1];
      CategoriesOfMembers(init, m, x);
      assert forall i :: 0 <= i < |init| ==> init[i] == cats[i];
    }
  }

  /** Back-linking only appends: the fields other than the two lists are
      untouched, and the old lists are prefixes of the new ones. */
  lemma LinkedExtends(m: Monument, imgs: seq<Image>, cats: seq<Category>)
    ensures var l := Linked(m, imgs, cats);
      && l.id == m.id && l.title == m.title && l.description == m.description && l.user == m.user
      && l.coordinates == m.coordinates && l.province == m.province && l.county == m.county
      && |l.images| >= |m.images| && l.images[..|m.images|] == m.images
      && |l.categories| >= |m.categories| && l.categories[..|m.categories|] == m.categories
  {
  }

  /** Relinking after the first `k` seeded monuments of the store's own table. */
  lemma {:induction false} RelinkedPrefix(store: seq<Monument>, imgs: seq<Image>, cats: seq<Category>, k: nat)
    requires k <= |store|
    requires forall i, j :: 0 <= i < j < |store| ==> store[i].id != store[j].id
    ensures var r := Relinked(store, store[..k], imgs, cats);
      |r| == |store| && forall i :: 0 <= i < |store| ==> r[i] == if i < k then Linked(store[i], imgs, cats) else store[i]
  {
    if k > 0 {
      assert store[..k][..k - 1] == store[..k - 1];
      RelinkedPrefix(store, imgs, cats, k - 1);
    }
  }

  /** When the seeded monuments are the store's monument table, whose ids are
      unique, the run leaves every monument back-linked. */
  lemma SeededTableBackLinked(store: seq<Monument>, next: Id, imgs: seq<Image>, cats: seq<Category>)
    requires KeysValid(store, MonumentKey, next)
    ensures Relinked(store, store, imgs, cats) == BackLinked(store, imgs, cats)
  {
    assert forall i, j :: 0 <= i < j < |store| ==> store[i].id != store[j].id by {
      assert forall i :: 0 <= i < |store| ==> Keys(store, MonumentKey)[i] == store[i].id;
    }
    assert store[..|store|] == store;
    RelinkedPrefix(store, imgs, cats, |store|);
  }

  /** After back-linking, every image that points at a monument is listed by it,
      and every category that lists a monument is listed by it. */
  lemma BackLinksComplete(ms: seq<Monument>, imgs: seq<Image>, cats: seq<Category>, j: nat, i: nat)
    requires j < |ms|
    ensures i < |imgs| && imgs[i].monument == Some(ms[j].id) ==> imgs[i].id in BackLinked(ms, imgs, cats)[j].images
    ensures i < |cats| && ms[j].id in cats[i].monuments ==> Some(cats[i].id) in BackLinked(ms, imgs, cats)[j].categories
  {
    if i < |imgs| {
      ImagesOfMembers(imgs, ms[j].id, imgs[i].id);
    }
    if i < |cats| {
      CategoriesOfMembers(cats, ms[j].id, Some(cats[i].id));
    }
  }
}
