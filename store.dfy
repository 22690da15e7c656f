/** The document store as in-memory tables. Each method is one store call the
    application makes; its postcondition gives the new contents of the one
    collection it touches, and the field frames say that nothing else changes.
    Every call is sequential and atomic. */
module Store {
  import opened Wrappers
  import opened Tables
  import opened Records

  class Database {
    var categories: seq<Category>
    var images: seq<Image>
    var monuments: seq<Monument>
    var users: seq<User>
    /** The next ObjectId the store hands out; `new Model(...)` takes one even if the document is never saved. */
    var nextId: Id

    /** In every collection, each id was handed out already and is unique. */
    ghost predicate Valid()
      reads this
    {
      && KeysValid(categories, CategoryKey, nextId)
      && KeysValid(images, ImageKey, nextId)
      && KeysValid(monuments, MonumentKey, nextId)
      && KeysValid(users, UserKey, nextId)
    }

    constructor ()
      ensures Valid()
      ensures categories == [] && images == [] && monuments == [] && users == [] && nextId == 0
    {
      categories, images, monuments, users, nextId := [], [], [], [], 0;
    }

    /** `new Category({ title, monuments }).save()`. */
    method InsertCategory(title: string, members: seq<Id>) returns (id: Id)
      requires Valid()
      modifies this`categories, this`nextId
      ensures Valid()
      ensures id == old(nextId) && nextId == id + 1
      ensures categories == old(categories) + [Category(id, title, members)]
    {
      id := nextId;
      KeysValidAppend(categories, Category(id, title, members), CategoryKey, nextId);
      categories := categories + [Category(id, title, members)];
      nextId := nextId + 1;
      KeysValidGrow(images, ImageKey, id, nextId);
      KeysValidGrow(monuments, MonumentKey, id, nextId);
      KeysValidGrow(users, UserKey, id, nextId);
    }

    /** `category.monuments.push(m); category.save()` for a category loaded earlier. */
    method PushToCategory(id: Id, m: Id)
      requires Valid()
      modifies this`categories
      ensures Valid()
      ensures categories == PushById(old(categories), id, m)
    {
      KeysValidSameKeys(categories, PushById(categories, id, m), CategoryKey, nextId);
      categories := PushById(categories, id, m);
    }

    /** `Category.updateOne({ title }, { $push: { monuments: m } })`. */
    method PushToFirstTitled(title: string, m: Id)
      requires Valid()
      modifies this`categories
      ensures Valid()
      ensures categories == PushFirstTitled(old(categories), title, m)
    {
      var next := PushFirstTitled(categories, title, m);
      assert |next| == |categories| && forall i :: 0 <= i < |categories| ==> next[i].id == categories[i].id;
      KeysValidSameKeys(categories, next, CategoryKey, nextId);
      categories := next;
    }

    /** `Category.updateMany({ $pull: { monuments: { $in: [m] } } })`. */
    method PullFromAll(m: Id)
      requires Valid()
      modifies this`categories
      ensures Valid()
      ensures categories == PullEverywhere(old(categories), m)
    {
      KeysValidSameKeys(categories, PullEverywhere(categories, m), CategoryKey, nextId);
      categories := PullEverywhere(categories, m);
    }

    /** `new Image({ title, imageUrl })`, followed by `save()` when `persist` holds. */
    method NewImage(title: string, url: string, persist: bool) returns (id: Id)
      requires Valid()
      modifies this`images, this`nextId
      ensures Valid()
      ensures id == old(nextId) && nextId == id + 1
      ensures images == old(images) + (if persist then [Image(id, title, url, None)] else [])
    {
      id := nextId;
      if persist {
        KeysValidAppend(images, Image(id, title, url, None), ImageKey, nextId);
        images := images + [Image(id, title, url, None)];
      } else {
        KeysValidGrow(images, ImageKey, id, id + 1);
      }
      nextId := nextId + 1;
      KeysValidGrow(categories, CategoryKey, id, nextId);
      KeysValidGrow(monuments, MonumentKey, id, nextId);
      KeysValidGrow(users, UserKey, id, nextId);
    }

    /** `Image.updateMany({ title: { $in: titles } }, { $set: { monument: m } })`. */
    method LinkImages(titles: seq<string>, m: Id)
      requires Valid()
      modifies this`images
      ensures Valid()
      ensures images == LinkByTitle(old(images), titles, m)
    {
      KeysValidSameKeys(images, LinkByTitle(images, titles, m), ImageKey, nextId);
      images := LinkByTitle(images, titles, m);
    }

    /** `Image.deleteMany({ monument: m })`. */
    method DeleteImagesOf(m: Id)
      requires Valid()
      modifies this`images
      ensures Valid()
      ensures images == DeleteByMonument(old(images), m)
    {
      KeysValidFilter(images, NotOf(m), ImageKey, nextId);
      images := DeleteByMonument(images, m);
    }

    /** `new Monument({ ... }).save()`; the id in `m` is replaced by a fresh one. */
    method InsertMonument(m: Monument) returns (id: Id)
      requires Valid()
      modifies this`monuments, this`nextId
      ensures Valid()
      ensures id == old(nextId) && nextId == id + 1
      ensures monuments == old(monuments) + [m.(id := id)]
    {
      id := nextId;
      KeysValidAppend(monuments, m.(id := id), MonumentKey, nextId);
      monuments := monuments + [m.(id := id)];
      nextId := nextId + 1;
      KeysValidGrow(categories, CategoryKey, id, nextId);
      KeysValidGrow(images, ImageKey, id, nextId);
      KeysValidGrow(users, UserKey, id, nextId);
    }

    /** `monument.save()` of a monument loaded or created earlier. */
    method SaveMonument(m: Monument)
      requires Valid()
      modifies this`monuments
      ensures Valid()
      ensures monuments == SaveByKey(old(monuments), MonumentKey, m)
    {
      KeysValidSameKeys(monuments, SaveByKey(monuments, MonumentKey, m), MonumentKey, nextId);
      monuments := SaveByKey(monuments, MonumentKey, m);
    }

    /** `Monument.updateOne({ _id: id }, { images, categories })`. */
    method UpdateMonumentLinks(id: Id, imgs: seq<Id>, cats: seq<Option<Id>>)
      requires Valid()
      modifies this`monuments
      ensures Valid()
      ensures monuments == SetLinks(old(monuments), id, imgs, cats)
    {
      KeysValidSameKeys(monuments, SetLinks(monuments, id, imgs, cats), MonumentKey, nextId);
      monuments := SetLinks(monuments, id, imgs, cats);
    }

    /** `Monument.deleteOne({ _id: id })`. */
    method DeleteMonument(id: Id)
      requires Valid()
      modifies this`monuments
      ensures Valid()
      ensures monuments == DeleteByKey(old(monuments), MonumentKey, id)
    {
      KeysValidFilter(monuments, KeyIsNot(MonumentKey, id), MonumentKey, nextId);
      monuments := DeleteByKey(monuments, MonumentKey, id);
    }

    /** `new User({ ... }).save()`; the id in `u` is replaced by a fresh one. */
    method InsertUser(u: User) returns (id: Id)
      requires Valid()
      modifies this`users, this`nextId
      ensures Valid()
      ensures id == old(nextId) && nextId == id + 1
      ensures users == old(users) + [u.(id := id)]
    {
      id := nextId;
      KeysValidAppend(users, u.(id := id), UserKey, nextId);
      users := users + [u.(id := id)];
      nextId := nextId + 1;
      KeysValidGrow(categories, CategoryKey, id, nextId);
      KeysValidGrow(images, ImageKey, id, nextId);
      KeysValidGrow(monuments, MonumentKey, id, nextId);
    }

    /** `user.save()` of a user loaded earlier. */
    method SaveUser(u: User)
      requires Valid()
      modifies this`users
      ensures Valid()
      ensures users == SaveByKey(old(users), UserKey, u)
    {
      KeysValidSameKeys(users, SaveByKey(users, UserKey, u), UserKey, nextId);
      users := SaveByKey(users, UserKey, u);
    }

    /** `User.deleteOne({ _id: id })`. */
    method DeleteUser(id: Id)
      requires Valid()
      modifies this`users
      ensures Valid()
      ensures users == DeleteByKey(old(users), UserKey, id)
    {
      KeysValidFilter(users, KeyIsNot(UserKey, id), UserKey, nextId);
      users := DeleteByKey(users, UserKey, id);
    }
  }
}
