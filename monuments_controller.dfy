/** The monument handlers: creation files a new monument under its province
    and its other categories and links its images; editing re-files it;
    deletion removes it with its images and category memberships. Each keeps
    the owner's `numberOfRecords` counter. A handler's result is the page it
    redirects to, or the error it throws. */
module MonumentsController {
  import opened Wrappers
  import opened Tables
  import opened Records
  import opened Store
  import opened CategoryFunctionality
  import opened ImageFunctionality

  /** The validated form payload of the add and edit forms. The edit route
      accepts only these keys, so its `monumentEdit._id` is always undefined. */
  datatype MonumentPayload = MonumentPayload(
    title: string,
    description: string,
    province: string,
    county: string,
    latitude: real,
    longitude: real,
    category: CategoryInput,
    imageUpload: ImageUpload)

  const ReportPage: string := "/report"

  function Somes(ids: seq<Id>): (r: seq<Option<Id>>)
    ensures |r| == |ids| && forall i :: 0 <= i < |ids| ==> r[i] == Some(ids[i])
  {
    seq(|ids|, i requires 0 <= i < |ids| => Some(ids[i]))
  }

  /** The monument document `addMonument` ends up storing. */
  function NewMonument(id: Id, data: MonumentPayload, owner: Id, categories: seq<Option<Id>>, images: seq<Id>): Monument {
    Monument(id, data.title, data.description, Some(owner), Coordinates(data.latitude, data.longitude),
             categories, images, data.province, data.county)
  }

  // ----- Record counter -----

  /** The counter after a deletion: decremented only while above zero. */
  function CountAfterDelete(n: int): int {
    if n > 0 then n - 1 else n
  }

  ghost predicate CountsNonNegative(users: seq<User>) {
    forall i :: 0 <= i < |users| ==> users[i].numberOfRecords >= 0
  }

  /** Neither an addition nor a deletion can drive a non-negative counter below zero. */
  lemma CountersStayNonNegative(users: seq<User>, u: User)
    requires CountsNonNegative(users) && u in users
    ensures CountsNonNegative(SaveByKey(users, UserKey, u.(numberOfRecords := u.numberOfRecords + 1)))
    ensures CountsNonNegative(SaveByKey(users, UserKey, u.(numberOfRecords := CountAfterDelete(u.numberOfRecords))))
    ensures CountAfterDelete(u.numberOfRecords) >= 0
  {
    var k :| 0 <= k < |users| && users[k] == u;
    assert u.numberOfRecords >= 0;
  }

  // ----- Creation -----

  /** Lines 164-188: the new monument document is saved, filed under its
      province, and the province step's result appended to its categories. */
  method InsertUnderProvince(db: Database, m0: Monument, province: string) returns (mon: Monument)
    requires db.Valid()
    modifies db`monuments, db`categories, db`nextId
    ensures db.Valid()
    ensures var mid := old(db.nextId);
      var p := ProvinceSpec(old(db.categories), mid + 1, province, mid);
      && mon == m0.(id := mid, categories := m0.categories + [p.id])
      && db.monuments == old(db.monuments) + [mon]
      && db.categories == p.cats && db.nextId == p.next
      && mid !in Keys(old(db.monuments), MonumentKey)
  {
    ghost var monuments0 := db.monuments;
    FreshKey(db.monuments, MonumentKey, db.nextId);
    var monumentId := db.InsertMonument(m0);
    var provinceCategoryId := AddMonumentProvinceCategory(db, province, monumentId);
    mon := m0.(id := monumentId, categories := m0.categories + [provinceCategoryId]);
    SaveLast(monuments0, m0.(id := monumentId), MonumentKey, mon);
    db.SaveMonument(mon);
  }

  /** Lines 193-206: the monument, saved last, is filed under its other
      categories, whose ids are appended to its categories when there are any. */
  method AppendOtherCategories(db: Database, ghost ms0: seq<Monument>, mon: Monument, input: CategoryInput)
    returns (res: Monument)
    requires db.Valid()
    requires db.monuments == ms0 + [mon] && mon.id !in Keys(ms0, MonumentKey)
    modifies db`monuments, db`categories, db`nextId
    ensures db.Valid()
    ensures var o := AddAdditionalSpec(old(db.categories), old(db.nextId), input, mon.id);
      && res == mon.(categories := mon.categories + Somes(o.ids))
      && db.monuments == ms0 + [res]
      && db.categories == o.cats && db.nextId == o.next
  {
    res := mon;
    var otherCategoryIds := AddMonumentAdditionalCategories(db, input, mon.id);
    if |otherCategoryIds| > 0 {
      res := PushCategoryIds(mon, otherCategoryIds);
      SaveLast(ms0, mon, MonumentKey, res);
      db.SaveMonument(res);
    } else {
      assert Somes(otherCategoryIds) == [];
      assert res == mon.(categories := mon.categories + Somes(otherCategoryIds));
    }
  }

  /** The loop of lines 200-202: one category reference pushed per id, in order. */
  method PushCategoryIds(mon: Monument, otherCategoryIds: seq<Id>) returns (res: Monument)
    ensures res == mon.(categories := mon.categories + Somes(otherCategoryIds))
  {
    res := mon;
    var i := 0;
    while i < |otherCategoryIds|
      invariant 0 <= i <= |otherCategoryIds|
      invariant res == mon.(categories := mon.categories + Somes(otherCategoryIds[..i]))
    {
      assert Somes(otherCategoryIds[..i + 1]) == Somes(otherCategoryIds[..i]) + [Some(otherCategoryIds[i])];
      res := res.(categories := res.categories + [Some(otherCategoryIds[i])]);
      i := i + 1;
    }
    assert otherCategoryIds[..i] == otherCategoryIds;
  }

  /** What a handler leaves behind in the four collections it may touch, with its result. */
  datatype Outcome = Outcome(result: Result<string>, categories: seq<Category>, images: seq<Image>,
                             monuments: seq<Monument>, nextId: Id)

  /** Lines 164-209 as a function of the collections: the monument document
      takes the next id, is filed under its province and then its other
      categories, and the images made for it are linked to it. */
  function FileSpec(cats: seq<Category>, imgs: seq<Image>, ms: seq<Monument>, next: Id,
                    owner: Id, data: MonumentPayload, made: ImageResult): Outcome
  {
    var p := ProvinceSpec(cats, next + 1, data.province, next);
    var o := AddAdditionalSpec(p.cats, p.next, data.category, next);
    Outcome(Ok(ReportPage), o.cats, LinkByTitle(imgs, made.imageTitles, next),
            ms + [NewMonument(next, data, owner, Refs(p.id, o.ids), made.imageIds)], o.next)
  }

  /** The outcome of filing, given the values of its steps. */
  lemma FileSpecSteps(cats: seq<Category>, imgs: seq<Image>, ms: seq<Monument>, next: Id,
                      owner: Id, data: MonumentPayload, made: ImageResult, p: Filed, o: Tally)
    requires p == ProvinceSpec(cats, next + 1, data.province, next)
    requires o == AddAdditionalSpec(p.cats, p.next, data.category, next)
    ensures FileSpec(cats, imgs, ms, next, owner, data, made)
      == Outcome(Ok(ReportPage), o.cats, LinkByTitle(imgs, made.imageTitles, next),
                 ms + [NewMonument(next, data, owner, Refs(p.id, o.ids), made.imageIds)], o.next)
  {
  }

  /** Lines 164-209: the monument document is saved, filed and its images linked. */
  method FileMonument(db: Database, owner: Id, data: MonumentPayload, made: ImageResult)
    requires db.Valid()
    modifies db`images, db`monuments, db`categories, db`nextId
    ensures db.Valid()
    ensures Outcome(Ok(ReportPage), db.categories, db.images, db.monuments, db.nextId)
         == FileSpec(old(db.categories), old(db.images), old(db.monuments), old(db.nextId), owner, data, made)
  {
    ghost var images0, monuments0, categories0, mid := db.images, db.monuments, db.categories, db.nextId;
    ghost var p := ProvinceSpec(categories0, mid + 1, data.province, mid);
    var newMonument := InsertUnderProvince(db, NewMonument(db.nextId, data, owner, [], made.imageIds), data.province);
    assert db.categories == p.cats && db.nextId == p.next;
    assert newMonument.categories == [p.id];
    ghost var o := AddAdditionalSpec(p.cats, p.next, data.category, mid);
    ghost var m1 := newMonument;
    newMonument := AppendOtherCategories(db, monuments0, newMonument, data.category);
    assert newMonument.categories == Refs(p.id, o.ids);
    assert newMonument == m1.(categories := Refs(p.id, o.ids));
    AddMonumentIdToImageRecords(db, made.imageTitles, newMonument.id);
    FileSpecSteps(categories0, images0, monuments0, mid, owner, data, made, p, o);
  }

  /** Lines 161-209: the images, then the monument. The ghost results are what
      the image step leaves: the image table, the id counter and the service's
      result, all given by the records planned for the upload. When the image
      service throws on the payload nothing changes; otherwise the monument is
      filed on the collections the image step leaves. */
  method CreateMonument(db: Database, owner: Id, data: MonumentPayload, upload: seq<bv8> -> string, nowText: string)
    returns (r: Result<string>, ghost images1: seq<Image>, ghost next1: Id, ghost made: ImageResult)
    requires db.Valid()
    modifies db`images, db`monuments, db`categories, db`nextId
    ensures db.Valid()
    ensures var recs := PlannedImages(AddImagesPlan(data.imageUpload, data.imageUpload), old(db.nextId), upload, nowText);
      images1 == old(db.images) + recs && next1 == old(db.nextId) + |recs| && made == ResultOf(recs)
    ensures AddImagesPlan(data.imageUpload, data.imageUpload).Crash? ==>
      && r == Err(TypeError)
      && db.categories == old(db.categories) && db.images == old(db.images)
      && db.monuments == old(db.monuments) && db.nextId == old(db.nextId)
    ensures !AddImagesPlan(data.imageUpload, data.imageUpload).Crash? ==>
      Outcome(r, db.categories, db.images, db.monuments, db.nextId)
      == FileSpec(old(db.categories), images1, old(db.monuments), next1, owner, data, made)
  {
    var imageResult := AddMonumentImages(db, data.imageUpload, data.imageUpload, false, upload, nowText);
    images1, next1 := db.images, db.nextId;
    if imageResult.Err? {
      made := ResultOf([]);
      r := Err(imageResult.error);
      return;
    }
    made := imageResult.value;
    FileMonument(db, owner, data, imageResult.value);
    r := Ok(ReportPage);
  }

  /** `addMonument.handler` for the signed-in user `userId`: the user's record
      counter goes up, then the monument is created. The upload field is passed
      both as the image and inside the payload; no testing configuration is
      given, so every image record is saved. The ghost results are as for
      `CreateMonument`. */
  method AddMonument(db: Database, userId: Id, data: MonumentPayload, upload: seq<bv8> -> string, nowText: string)
    returns (r: Result<string>, ghost images1: seq<Image>, ghost next1: Id, ghost made: ImageResult)
    requires db.Valid()
    modifies db`users, db`images, db`monuments, db`categories, db`nextId
    ensures db.Valid()
    ensures FindByKey(old(db.users), UserKey, userId).None? ==>
      && r == Err(TypeError) && db.users == old(db.users)
      && db.categories == old(db.categories) && db.images == old(db.images)
      && db.monuments == old(db.monuments) && db.nextId == old(db.nextId)
    ensures FindByKey(old(db.users), UserKey, userId).Some? ==>
      var u := FindByKey(old(db.users), UserKey, userId).value;
      var recs := PlannedImages(AddImagesPlan(data.imageUpload, data.imageUpload), old(db.nextId), upload, nowText);
      && db.users == SaveByKey(old(db.users), UserKey, u.(numberOfRecords := u.numberOfRecords + 1))
      && images1 == old(db.images) + recs && next1 == old(db.nextId) + |recs| && made == ResultOf(recs)
      && (AddImagesPlan(data.imageUpload, data.imageUpload).Crash? ==>
            && r == Err(TypeError)
            && db.categories == old(db.categories) && db.images == old(db.images)
            && db.monuments == old(db.monuments) && db.nextId == old(db.nextId))
      && (!AddImagesPlan(data.imageUpload, data.imageUpload).Crash? ==>
            Outcome(r, db.categories, db.images, db.monuments, db.nextId)
            == FileSpec(old(db.categories), images1, old(db.monuments), next1, u.id, data, made))
  {
    var found := FindByKey(db.users, UserKey, userId);
    images1, next1, made := db.images, db.nextId, ResultOf([]);
    if found.None? {
      r := Err(TypeError);
      return;
    }
    var user := found.value;
    var existingRecordCount := user.numberOfRecords;
    user := user.(numberOfRecords := existingRecordCount + 1);
    assert user == found.value.(numberOfRecords := found.value.numberOfRecords + 1);
    db.SaveUser(user);
    ghost var users1 := db.users;
    assert users1 == SaveByKey(old(db.users), UserKey, user);
    r, images1, next1, made := CreateMonument(db, user.id, data, upload, nowText);
    assert db.users == users1;
  }

  /** A sequence of category references. */
  function Refs(c: Option<Id>, ids: seq<Id>): (r: seq<Option<Id>>)
    ensures |r| == |ids| + 1 && r[0] == c
    ensures forall i :: 0 <= i < |ids| ==> r[i + 1] == Some(ids[i])
  {
    [c] + Somes(ids)
  }

  /** Some category with id `id` lists monument `m`. */
  ghost predicate Lists(cats: seq<Category>, id: Id, m: Id) {
    exists k :: 0 <= k < |cats| && cats[k].id == id && m in cats[k].monuments
  }

  lemma LinkedLists(cats: seq<Category>, id: Id, ts: seq<string>, m: Id)
    requires Linked(cats, id, ts, m)
    ensures Lists(cats, id, m)
  {
  }

  /** Filing a new monument `m` under its province and then its other
      categories: every category it then refers to lists it, and so does its
      province category. */
  lemma FilingListsMonument(cats: seq<Category>, m: Id, province: string, input: CategoryInput)
    ensures var p := ProvinceSpec(cats, m + 1, province, m);
      var o := AddAdditionalSpec(p.cats, p.next, input, m);
      && Grows(cats, o.cats) && o.next > m
      && (p.id.None? <==> WithTitle(cats, province) != [])
      && (forall id :: Some(id) in Refs(p.id, o.ids) ==> Lists(o.cats, id, m))
      && (exists k :: 0 <= k < |o.cats| && o.cats[k].title == province && m in o.cats[k].monuments)
  {
    var p := ProvinceSpec(cats, m + 1, province, m);
    var o := AddAdditionalSpec(p.cats, p.next, input, m);
    FiledUnderProvince(cats, m, province, input);
    FiledUnderOthers(cats, m, province, input);
    forall id | Some(id) in Refs(p.id, o.ids)
      ensures Lists(o.cats, id, m)
    {
      var rs := Refs(p.id, o.ids);
      var j :| 0 <= j < |rs| && rs[j] == Some(id);
      if j > 0 {
        assert rs[(j - 1) + 1] == Some(o.ids[j - 1]);
        assert o.ids[j - 1] in o.ids;
      }
    }
  }

  /** The part of `AddAdditionalLinks` the filing needs. */
  lemma AddAdditionalKeeps(cats: seq<Category>, next: Id, input: CategoryInput, m: Id)
    ensures var r := AddAdditionalSpec(cats, next, input, m);
      && Grows(cats, r.cats) && r.next >= next
      && forall id :: id in r.ids ==> Linked(r.cats, id, Titles(input), m)
  {
    AddAdditionalLinks(cats, next, input, m);
  }

  /** The province step of the filing: the table only grows, the reference is
      `undefined` exactly when the province category existed, a category it
      names lists the monument, and so does some category with the province title. */
  lemma FiledUnderProvince(cats: seq<Category>, m: Id, province: string, input: CategoryInput)
    ensures var p := ProvinceSpec(cats, m + 1, province, m);
      var o := AddAdditionalSpec(p.cats, p.next, input, m);
      && Grows(cats, o.cats) && o.next > m
      && (p.id.None? <==> WithTitle(cats, province) != [])
      && (p.id.Some? ==> Lists(o.cats, p.id.value, m))
      && (exists k :: 0 <= k < |o.cats| && o.cats[k].title == province && m in o.cats[k].monuments)
  {
    var p := ProvinceSpec(cats, m + 1, province, m);
    var o := AddAdditionalSpec(p.cats, p.next, input, m);
    ProvinceKeeps(cats, m + 1, province, m);
    AddAdditionalKeeps(p.cats, p.next, input, m);
    GrowsTrans(cats, p.cats, o.cats);
    if p.id.Some? {
      LinkedGrows(p.cats, o.cats, p.id.value, [province], m);
      LinkedLists(o.cats, p.id.value, [province], m);
    }
    var id :| Linked(p.cats, id, [province], m);
    LinkedGrows(p.cats, o.cats, id, [province], m);
    LinkedTitled(o.cats, id, province, m);
  }

  lemma LinkedTitled(cats: seq<Category>, id: Id, t: string, m: Id)
    requires Linked(cats, id, [t], m)
    ensures exists k :: 0 <= k < |cats| && cats[k].title == t && m in cats[k].monuments
  {
    var k :| 0 <= k < |cats| && cats[k].id == id && cats[k].title in [t] && m in cats[k].monuments;
    assert cats[k].title == t;
  }

  /** The part of `ProvinceFiling` the filing needs: some category with the
      province title lists the monument, and the new one when it is created. */
  lemma ProvinceKeeps(cats: seq<Category>, next: Id, province: string, m: Id)
    ensures var r := ProvinceSpec(cats, next, province, m);
      && Grows(cats, r.cats) && r.next >= next
      && (r.id.None? <==> WithTitle(cats, province) != [])
      && (r.id.Some? ==> Linked(r.cats, r.id.value, [province], m))
      && exists id :: Linked(r.cats, id, [province], m)
  {
    var r := ProvinceSpec(cats, next, province, m);
    ProvinceFiling(cats, next, province, m);
    if r.id.None? {
      var i :| 0 <= i < |cats| && FirstTitledAt(cats, i, province) && m in r.cats[i].monuments;
      assert r.cats[i].title == province;
      assert Linked(r.cats, r.cats[i].id, [province], m);
    }
  }

  /** The other-category step of the filing: every id it returns names a category listing the monument. */
  lemma FiledUnderOthers(cats: seq<Category>, m: Id, province: string, input: CategoryInput)
    ensures var p := ProvinceSpec(cats, m + 1, province, m);
      var o := AddAdditionalSpec(p.cats, p.next, input, m);
      forall id :: id in o.ids ==> Lists(o.cats, id, m)
  {
    var p := ProvinceSpec(cats, m + 1, province, m);
    var o := AddAdditionalSpec(p.cats, p.next, input, m);
    AddAdditionalKeeps(p.cats, p.next, input, m);
    forall id | id in o.ids ensures Lists(o.cats, id, m) {
      LinkedLists(o.cats, id, Titles(input), m);
    }
  }

  /** Lines 164-209 keep the collections consistent: the new monument comes
      last under the next id, owned by the user; every category it refers to
      lists it; its province category lists it; a reference is `undefined`
      exactly when that province category existed already; and no category
      loses a member. */
  lemma FiledMonumentIsListed(cats: seq<Category>, imgs: seq<Image>, ms: seq<Monument>, next: Id,
                              owner: Id, data: MonumentPayload, made: ImageResult)
    ensures var out := FileSpec(cats, imgs, ms, next, owner, data, made);
      && out.result == Ok(ReportPage)
      && Grows(cats, out.categories) && out.nextId > next
      && |out.monuments| == |ms| + 1 && out.monuments[..|ms|] == ms
      && var m := out.monuments[|ms|];
         && m.id == next && m.user == Some(owner) && m.images == made.imageIds
         && m.title == data.title && m.description == data.description
         && m.province == data.province && m.county == data.county
         && m.coordinates == Coordinates(data.latitude, data.longitude)
         && |m.categories| >= 1 && (m.categories[0].None? <==> WithTitle(cats, data.province) != [])
         && (forall id :: Some(id) in m.categories ==> Lists(out.categories, id, next))
         && (exists k :: 0 <= k < |out.categories| && out.categories[k].title == data.province && next in out.categories[k].monuments)
  {
    var p := ProvinceSpec(cats, next + 1, data.province, next);
    var o := AddAdditionalSpec(p.cats, p.next, data.category, next);
    FileSpecSteps(cats, imgs, ms, next, owner, data, made, p, o);
    FilingListsMonument(cats, next, data.province, data.category);
    assert (ms + [NewMonument(next, data, owner, Refs(p.id, o.ids), made.imageIds)])[..|ms|] == ms;
  }

  // ----- Editing -----

  /** `monument.categories` after the edit loop: the kept entries, then every
      new id that is not in the list yet, in order. */
  function AppendNew(acc: seq<Option<Id>>, ids: seq<Id>): seq<Option<Id>>
    decreases |ids|
  {
    if ids == [] then acc
    else
      var r := AppendNew(acc, ids[..|ids| - 1]);
      if Some(ids[|ids| - 1]) in r then r else r + [Some(ids[|ids| - 1])]
  }

  /** The kept entries stay in front; every new id is in the list; nothing else
      is added; and no appended entry repeats one before it. */
  lemma AppendNewFacts(acc: seq<Option<Id>>, ids: seq<Id>)
    ensures var r := AppendNew(acc, ids);
      && r == acc + Fresh(acc, ids)
      && |acc| <= |r| && r[..|acc|] == acc
      && (forall x :: x in ids ==> Some(x) in r)
      && (forall v :: v in r ==> v in acc || (v.Some? && v.value in ids))
      && (forall i :: |acc| <= i < |r| ==> r[i] !in r[..i])
  {
    AppendNewIsFresh(acc, ids);
    AppendNewKeeps(acc, ids);
    AppendNewCovers(acc, ids);
    AppendNewOnly(acc, ids);
    AppendNewDistinct(acc, ids);
  }

  /** The ids of `ids` that are not yet among `acc`, read front to back, each
      taken the first time it is met. */
  function Fresh(acc: seq<Option<Id>>, ids: seq<Id>): seq<Option<Id>>
    decreases |ids|
  {
    if ids == [] then []
    else if Some(ids[0]) in acc then Fresh(acc, ids[1..])
    else [Some(ids[0])] + Fresh(acc + [Some(ids[0])], ids[1..])
  }

  lemma {:induction false} AppendNewConcat(acc: seq<Option<Id>>, a: seq<Id>, b: seq<Id>)
    ensures AppendNew(acc, a + b) == AppendNew(AppendNew(acc, a), b)
    decreases |b|
  {
    if b == [] {
      assert a + b == a;
    } else {
      var init := b[..|b| - 1];
      AppendNewConcat(acc, a, init);
      assert (a + b)[..|a + b| - 1] == a + init;
    }
  }

  lemma {:induction false} AppendNewIsFresh(acc: seq<Option<Id>>, ids: seq<Id>)
    ensures AppendNew(acc, ids) == acc + Fresh(acc, ids)
    decreases |ids|
  {
    if ids == [] {
      assert acc + [] == acc;
    } else {
      var x, rest := ids[0], ids[1..];
      assert ids == [x] + rest;
      AppendNewConcat(acc, [x], rest);
      assert AppendNew(acc, [x]) == if Some(x) in acc then acc else acc + [Some(x)] by {
        assert [x][..0] == [];
      }
      AppendNewIsFresh(AppendNew(acc, [x]), rest);
      if Some(x) !in acc {
        assert acc + [Some(x)] + Fresh(acc + [Some(x)], rest) == acc + ([Some(x)] + Fresh(acc + [Some(x)], rest));
      }
    }
  }

  lemma {:induction false} AppendNewKeeps(acc: seq<Option<Id>>, ids: seq<Id>)
    ensures var r := AppendNew(acc, ids); |acc| <= |r| && r[..|acc|] == acc
    decreases |ids|
  {
    if ids != [] {
      var init := ids[..|ids| - 1];
      AppendNewKeeps(acc, init);
      var p := AppendNew(acc, init);
      if Some(ids[|ids| - 1]) !in p {
        assert AppendNew(acc, ids)[..|acc|] == p[..|acc|];
      }
    }
  }

  lemma {:induction false} AppendNewCovers(acc: seq<Option<Id>>, ids: seq<Id>)
    ensures forall x :: x in ids ==> Some(x) in AppendNew(acc, ids)
    decreases |ids|
  {
    if ids != [] {
      var init, x := ids[..|ids| - 1], ids[|ids| - 1];
      AppendNewCovers(acc, init);
      assert ids == init + [x];
    }
  }

  lemma {:induction false} AppendNewOnly(acc: seq<Option<Id>>, ids: seq<Id>)
    ensures forall v :: v in AppendNew(acc, ids) ==> v in acc || (v.Some? && v.value in ids)
    decreases |ids|
  {
    if ids != [] {
      var init := ids[..|ids| - 1];
      AppendNewOnly(acc, init);
      assert forall y :: y in init ==> y in ids;
    }
  }

  lemma {:induction false} AppendNewDistinct(acc: seq<Option<Id>>, ids: seq<Id>)
    ensures var r := AppendNew(acc, ids); forall i :: |acc| <= i < |r| ==> r[i] !in r[..i]
    decreases |ids|
  {
    if ids != [] {
      var init := ids[..|ids| - 1];
      AppendNewDistinct(acc, init);
      AppendNewKeeps(acc, init);
      var p := AppendNew(acc, init);
      var r := AppendNew(acc, ids);
      if Some(ids[|ids| - 1]) !in p {
        assert r[..|p|] == p;
        assert forall i :: |acc| <= i < |p| ==> r[..i] == p[..i];
      }
    }
  }

  /** The first stored category reference, or `undefined` when there is none. */
  function FirstRef(refs: seq<Option<Id>>): Option<Id> {
    if refs == [] then None else refs[0]
  }

  /** The monument document `editMonument` stores: new title, description and
      coordinates; the owner cleared; the images replaced only by a non-empty
      list; the categories cut down to the first and extended by the new ids.
      Province and county are not written. */
  function Edited(m: Monument, data: MonumentPayload, imageIds: seq<Id>, otherIds: seq<Id>): Monument {
    m.(title := data.title,
       description := data.description,
       user := None,
       images := if |imageIds| > 0 then imageIds else m.images,
       categories := AppendNew([FirstRef(m.categories)], otherIds),
       coordinates := Coordinates(data.latitude, data.longitude))
  }

  lemma EditedFields(m: Monument, data: MonumentPayload, imageIds: seq<Id>, otherIds: seq<Id>)
    ensures var e := Edited(m, data, imageIds, otherIds);
      && e.id == m.id && e.province == m.province && e.county == m.county
      && e.title == data.title && e.description == data.description && e.user == None
      && e.coordinates == Coordinates(data.latitude, data.longitude)
      && (|imageIds| > 0 ==> e.images == imageIds)
      && (imageIds == [] ==> e.images == m.images)
      && e.categories == [FirstRef(m.categories)] + Fresh([FirstRef(m.categories)], otherIds)
      && |e.categories| >= 1 && e.categories[0] == FirstRef(m.categories)
      && (forall id :: id in otherIds ==> Some(id) in e.categories)
      && (forall v :: v in e.categories[1..] ==> v.Some? && v.value in otherIds)
  {
    AppendedAfterHead(FirstRef(m.categories), otherIds);
  }

  /** With one kept entry in front, every entry after it is a new id. */
  lemma AppendedAfterHead(c: Option<Id>, otherIds: seq<Id>)
    ensures var cs := AppendNew([c], otherIds);
      && cs == [c] + Fresh([c], otherIds)
      && |cs| >= 1 && cs[0] == c
      && (forall id :: id in otherIds ==> Some(id) in cs)
      && (forall v :: v in cs[1..] ==> v.Some? && v.value in otherIds)
  {
    var cs := AppendNew([c], otherIds);
    AppendNewFacts([c], otherIds);
    forall v | v in cs[1..] ensures v.Some? && v.value in otherIds {
      var i :| 1 <= i < |cs| && cs[i] == v;
      assert cs[..i][0] == cs[0];
      assert cs[i] != cs[0];
    }
  }

  /** Lines 318-324: the monument is taken out of every category, put back
      under its province and filed under the chosen other categories. */
  method RefileMonument(db: Database, monumentId: Id, province: string, input: CategoryInput)
    returns (newOtherCategoryIds: seq<Id>)
    requires db.Valid()
    modifies db`categories, db`nextId
    ensures db.Valid()
    ensures var pushed := PushFirstTitled(PullEverywhere(old(db.categories), monumentId), province, monumentId);
      Tally(db.categories, db.nextId, newOtherCategoryIds) == EditAdditionalSpec(pushed, old(db.nextId), input, monumentId)
  {
    PullPriorMonumentIds(db, monumentId);
    EditMonumentProvince(db, province, monumentId);
    newOtherCategoryIds := EditMonumentAdditionalCategories(db, input, monumentId);
  }

  /** Lines 326-347: the loaded monument with the form's fields written into it. */
  method EditedDocument(monument: Monument, data: MonumentPayload, imageIds: seq<Id>, newOtherCategoryIds: seq<Id>)
    returns (res: Monument)
    ensures res == Edited(monument, data, imageIds, newOtherCategoryIds)
  {
    res := monument.(title := data.title, description := data.description, user := None);
    if |imageIds| > 0 {
      res := res.(images := imageIds);
    }
    res := res.(categories := [FirstRef(res.categories)]);
    res := res.(coordinates := Coordinates(data.latitude, data.longitude));
    ghost var kept := res.categories;
    if |newOtherCategoryIds| > 0 {
      var i := 0;
      while i < |newOtherCategoryIds|
        invariant 0 <= i <= |newOtherCategoryIds|
        invariant res == Edited(monument, data, imageIds, newOtherCategoryIds[..i])
      {
        assert newOtherCategoryIds[..i + 1][..i] == newOtherCategoryIds[..i];
        if Some(newOtherCategoryIds[i]) !in res.categories {
          res := res.(categories := res.categories + [Some(newOtherCategoryIds[i])]);
        }
        i := i + 1;
      }
      assert newOtherCategoryIds[..i] == newOtherCategoryIds;
    }
  }

  /** Lines 314-352 as a function of the collections: a monument that is not
      stored makes the handler throw; otherwise the monument is re-filed, its
      edited document saved and the images made for it linked. */
  function ReviseSpec(cats: seq<Category>, imgs: seq<Image>, ms: seq<Monument>, next: Id,
                      monumentId: Id, data: MonumentPayload, made: ImageResult): Outcome
  {
    match FindByKey(ms, MonumentKey, monumentId)
    case None => Outcome(Err(TypeError), cats, imgs, ms, next)
    case Some(m) =>
      var pushed := PushFirstTitled(PullEverywhere(cats, monumentId), data.province, monumentId);
      var o := EditAdditionalSpec(pushed, next, data.category, monumentId);
      Outcome(Ok(ReportPage), o.cats, LinkByTitle(imgs, made.imageTitles, monumentId),
              SaveByKey(ms, MonumentKey, Edited(m, data, made.imageIds, o.ids)), o.next)
  }

  lemma ReviseSpecSteps(cats: seq<Category>, imgs: seq<Image>, ms: seq<Monument>, next: Id,
                        monumentId: Id, data: MonumentPayload, made: ImageResult, m: Monument, o: Tally)
    requires FindByKey(ms, MonumentKey, monumentId) == Some(m)
    requires o == EditAdditionalSpec(PushFirstTitled(PullEverywhere(cats, monumentId), data.province, monumentId), next, data.category, monumentId)
    ensures ReviseSpec(cats, imgs, ms, next, monumentId, data, made)
      == Outcome(Ok(ReportPage), o.cats, LinkByTitle(imgs, made.imageTitles, monumentId),
                 SaveByKey(ms, MonumentKey, Edited(m, data, made.imageIds, o.ids)), o.next)
  {
  }

  /** Re-filing monument `m`: afterwards it is listed by every category whose
      id the other-category step returns and, when a category with its province
      title exists, by such a category; no category is lost or renamed. */
  lemma RefilingListsMonument(cats: seq<Category>, next: Id, m: Id, province: string, input: CategoryInput)
    ensures var pushed := PushFirstTitled(PullEverywhere(cats, m), province, m);
      var o := EditAdditionalSpec(pushed, next, input, m);
      && |cats| <= |o.cats| && o.next >= next
      && (forall k :: 0 <= k < |cats| ==> o.cats[k].id == cats[k].id && o.cats[k].title == cats[k].title)
      && (forall id :: id in o.ids ==> Lists(o.cats, id, m))
      && ((exists k :: 0 <= k < |cats| && cats[k].title == province) ==>
            exists k :: 0 <= k < |o.cats| && o.cats[k].title == province && m in o.cats[k].monuments)
  {
    var pulled := PullEverywhere(cats, m);
    var pushed := PushFirstTitled(pulled, province, m);
    var o := EditAdditionalSpec(pushed, next, input, m);
    RefileKeepsCategories(cats, m, province);
    EditAdditionalKeeps(pushed, next, input, m);
    forall id | id in o.ids ensures Lists(o.cats, id, m) {
      LinkedLists(o.cats, id, Titles(input), m);
    }
    if i :| 0 <= i < |cats| && cats[i].title == province {
      RefiledProvinceListed(cats, next, m, province, input, i);
    }
  }

  /** Pulling and pushing keep every category in place with its id and title. */
  lemma RefileKeepsCategories(cats: seq<Category>, m: Id, province: string)
    ensures var pushed := PushFirstTitled(PullEverywhere(cats, m), province, m);
      && |pushed| == |cats|
      && forall k :: 0 <= k < |cats| ==> pushed[k].id == cats[k].id && pushed[k].title == cats[k].title
  {
  }

  /** The part of `EditAdditionalLinks` the re-filing needs. */
  lemma EditAdditionalKeeps(cats: seq<Category>, next: Id, input: CategoryInput, m: Id)
    ensures var r := EditAdditionalSpec(cats, next, input, m);
      && Grows(cats, r.cats) && r.next >= next
      && forall id :: id in r.ids ==> Linked(r.cats, id, Titles(input), m)
  {
    EditAdditionalLinks(cats, next, input, m);
  }

  /** When category `i` carries the province title, some category with that
      title lists the monument after re-filing. */
  lemma RefiledProvinceListed(cats: seq<Category>, next: Id, m: Id, province: string, input: CategoryInput, i: nat)
    requires i < |cats| && cats[i].title == province
    ensures var o := EditAdditionalSpec(PushFirstTitled(PullEverywhere(cats, m), province, m), next, input, m);
      exists k :: 0 <= k < |o.cats| && o.cats[k].title == province && m in o.cats[k].monuments
  {
    var pulled := PullEverywhere(cats, m);
    var pushed := PushFirstTitled(pulled, province, m);
    assert pulled[i] in pulled && TitleIs(province)(pulled[i]);
    assert WithTitle(pulled, province) != [];
    PushFirstTitledGrows(pulled, province, m);
    EditAdditionalKeeps(pushed, next, input, m);
    var o := EditAdditionalSpec(pushed, next, input, m);
    LinkedGrows(pushed, o.cats, WithTitle(pulled, province)[0].id, [province], m);
  }

  /** Lines 314-352 for a stored monument: the document saved under its id has
      the form's title and description, no owner, the new images when there
      are any, its old first category reference followed only by references
      to categories that list it; and its province category lists it. */
  lemma RevisedMonumentIsListed(cats: seq<Category>, imgs: seq<Image>, ms: seq<Monument>, next: Id,
                                monumentId: Id, data: MonumentPayload, made: ImageResult, m: Monument)
    requires FindByKey(ms, MonumentKey, monumentId) == Some(m)
    ensures var out := ReviseSpec(cats, imgs, ms, next, monumentId, data, made);
      var e := FindByKey(out.monuments, MonumentKey, monumentId);
      && out.result == Ok(ReportPage) && |out.monuments| == |ms| && out.nextId >= next
      && e.Some?
      && e.value.title == data.title && e.value.description == data.description && e.value.user == None
      && e.value.province == m.province && e.value.county == m.county
      && e.value.coordinates == Coordinates(data.latitude, data.longitude)
      && e.value.images == (if |made.imageIds| > 0 then made.imageIds else m.images)
      && |e.value.categories| >= 1 && e.value.categories[0] == FirstRef(m.categories)
      && (forall v :: v in e.value.categories[1..] ==> v.Some? && Lists(out.categories, v.value, monumentId))
      && ((exists k :: 0 <= k < |cats| && cats[k].title == data.province) ==>
            exists k :: 0 <= k < |out.categories| && out.categories[k].title == data.province && monumentId in out.categories[k].monuments)
  {
    var o := EditAdditionalSpec(PushFirstTitled(PullEverywhere(cats, monumentId), data.province, monumentId), next, data.category, monumentId);
    ReviseSpecSteps(cats, imgs, ms, next, monumentId, data, made, m, o);
    var e := Edited(m, data, made.imageIds, o.ids);
    EditedFields(m, data, made.imageIds, o.ids);
    var j :| 0 <= j < |ms| && ms[j] == m;
    assert Keys(ms, MonumentKey)[j] == monumentId;
    FindAfterSave(ms, MonumentKey, e);
    RefilingListsMonument(cats, next, monumentId, data.province, data.category);
  }

  /** Lines 314-352: the monument is looked up, re-filed, edited and saved, and its new images linked. */
  method ReviseMonument(db: Database, monumentId: Id, data: MonumentPayload, made: ImageResult)
    returns (r: Result<string>)
    requires db.Valid()
    modifies db`images, db`monuments, db`categories, db`nextId
    ensures db.Valid()
    ensures Outcome(r, db.categories, db.images, db.monuments, db.nextId)
         == ReviseSpec(old(db.categories), old(db.images), old(db.monuments), old(db.nextId), monumentId, data, made)
  {
    var found := FindByKey(db.monuments, MonumentKey, monumentId);
    if found.None? {
      return Err(TypeError);
    }
    ghost var images0, monuments0, categories0, next0 := db.images, db.monuments, db.categories, db.nextId;
    var monument := found.value;
    var newOtherCategoryIds := RefileMonument(db, monument.id, data.province, data.category);
    ghost var o := Tally(db.categories, db.nextId, newOtherCategoryIds);
    var edited := EditedDocument(monument, data, made.imageIds, newOtherCategoryIds);
    db.SaveMonument(edited);
    AddMonumentIdToImageRecords(db, made.imageTitles, monumentId);
    r := Ok(ReportPage);
    ReviseSpecSteps(categories0, images0, monuments0, next0, monumentId, data, made, found.value, o);
  }

  /** `editMonument.handler` for monument `monumentId` (lines 312-352). The
      image service is called without its flag; the ghost results are what it
      leaves, as for `CreateMonument`. When it throws on the payload nothing
      changes, otherwise the monument is revised on the collections it leaves. */
  method EditMonument(db: Database, monumentId: Id, data: MonumentPayload, upload: seq<bv8> -> string, nowText: string)
    returns (r: Result<string>, ghost images1: seq<Image>, ghost next1: Id, ghost made: ImageResult)
    requires db.Valid()
    modifies db`images, db`monuments, db`categories, db`nextId
    ensures db.Valid()
    ensures var recs := PlannedImages(EditImagesPlan(data.imageUpload, false), old(db.nextId), upload, nowText);
      images1 == old(db.images) + recs && next1 == old(db.nextId) + |recs| && made == ResultOf(recs)
    ensures EditImagesPlan(data.imageUpload, false).Crash? ==>
      && r == Err(TypeError)
      && db.categories == old(db.categories) && db.images == old(db.images)
      && db.monuments == old(db.monuments) && db.nextId == old(db.nextId)
    ensures !EditImagesPlan(data.imageUpload, false).Crash? ==>
      Outcome(r, db.categories, db.images, db.monuments, db.nextId)
      == ReviseSpec(old(db.categories), images1, old(db.monuments), next1, monumentId, data, made)
  {
    var imageResult := EditMonumentImages(db, data.imageUpload, false, upload, nowText);
    images1, next1 := db.images, db.nextId;
    if imageResult.Err? {
      made := ResultOf([]);
      r := Err(imageResult.error);
      return;
    }
    made := imageResult.value;
    r := ReviseMonument(db, monumentId, data, imageResult.value);
  }

  // ----- Deletion -----

  /** `deleteMonument.handler` for monument `recordId` and the signed-in user `userId`. */
  method DeleteMonument(db: Database, userId: Id, recordId: Id) returns (r: Result<string>)
    requires db.Valid()
    modifies db
    ensures db.Valid()
    ensures db.nextId == old(db.nextId)
    ensures db.monuments == DeleteByKey(old(db.monuments), MonumentKey, recordId)
    ensures db.categories == PullEverywhere(old(db.categories), recordId)
    ensures db.images == DeleteByMonument(old(db.images), recordId)
    ensures FindByKey(old(db.users), UserKey, userId).None? ==> r == Err(TypeError) && db.users == old(db.users)
    ensures FindByKey(old(db.users), UserKey, userId).Some? ==>
      var u := FindByKey(old(db.users), UserKey, userId).value;
      && r == Ok(ReportPage)
      && db.users == SaveByKey(old(db.users), UserKey, u.(numberOfRecords := CountAfterDelete(u.numberOfRecords)))
    ensures CountsNonNegative(old(db.users)) ==> CountsNonNegative(db.users)
  {
    db.DeleteMonument(recordId);
    RemoveMonumentId(db, recordId);
    DeleteImageRecords(db, recordId);
    var found := FindByKey(db.users, UserKey, userId);
    if found.None? {
      return Err(TypeError);
    }
    var user := found.value;
    var existingRecordCount := user.numberOfRecords;
    if existingRecordCount > 0 {
      user := user.(numberOfRecords := existingRecordCount - 1);
    }
    if CountsNonNegative(db.users) {
      CountersStayNonNegative(db.users, found.value);
    }
    db.SaveUser(user);
    r := Ok(ReportPage);
  }

  /** After lines 363-369 nothing refers to the deleted monument: it is not
      stored, no category lists it and no image belongs to it; every other
      monument, category and unrelated image is kept. */
  lemma DeletionLeavesNoReference(cats: seq<Category>, imgs: seq<Image>, ms: seq<Monument>, recordId: Id)
    ensures recordId !in Keys(DeleteByKey(ms, MonumentKey, recordId), MonumentKey)
    ensures forall m :: m in ms && m.id != recordId ==> m in DeleteByKey(ms, MonumentKey, recordId)
    ensures |PullEverywhere(cats, recordId)| == |cats|
    ensures forall c :: c in PullEverywhere(cats, recordId) ==> recordId !in c.monuments
    ensures forall i :: i in DeleteByMonument(imgs, recordId) ==> i.monument != Some(recordId)
    ensures forall i :: i in imgs && i.monument != Some(recordId) ==> i in DeleteByMonument(imgs, recordId)
  {
    var r := PullEverywhere(cats, recordId);
    forall c | c in r ensures recordId !in c.monuments {
      var k :| 0 <= k < |r| && r[k] == c;
    }
  }

  // ----- Edit view -----

  /** The ids of the defined references, in reference order. */
  function RefIds(refs: seq<Option<Id>>): (r: seq<Id>)
    ensures forall x :: x in r <==> Some(x) in refs
    decreases |refs|
  {
    if refs == [] then []
    else
      var init, last := refs[..|refs| - 1], refs[|refs| - 1];
      assert refs == init + [last];
      RefIds(init) + (if last.Some? then [last.value] else [])
  }

  function CategoryStored(cats: seq<Category>): Id -> bool {
    (id: Id) => id in Keys(cats, CategoryKey)
  }

  /** `populate("categories")`: the stored categories the references name, in
      reference order and once per reference; an undefined or dangling
      reference is dropped. */
  function PopulateRefs(refs: seq<Option<Id>>, cats: seq<Category>): (r: seq<Category>)
    ensures Keys(r, CategoryKey) == Filter(RefIds(refs), CategoryStored(cats))
    ensures forall j :: 0 <= j < |r| ==> FindByKey(cats, CategoryKey, r[j].id) == Some(r[j])
    decreases |refs|
  {
    if refs == [] then []
    else
      var init, last := refs[..|refs| - 1], refs[|refs| - 1];
      var r := PopulateRefs(init, cats);
      var found := if last.Some? then FindByKey(cats, CategoryKey, last.value) else None;
      PopulateRefsStep(refs, cats, r, found);
      r + (if found.Some? then [found.value] else [])
  }

  lemma PopulateRefsStep(refs: seq<Option<Id>>, cats: seq<Category>, r: seq<Category>, found: Option<Category>)
    requires refs != []
    requires Keys(r, CategoryKey) == Filter(RefIds(refs[..|refs| - 1]), CategoryStored(cats))
    requires forall j :: 0 <= j < |r| ==> FindByKey(cats, CategoryKey, r[j].id) == Some(r[j])
    requires found == if refs[|refs| - 1].Some? then FindByKey(cats, CategoryKey, refs[|refs| - 1].value) else None
    ensures var r' := r + (if found.Some? then [found.value] else []);
      && Keys(r', CategoryKey) == Filter(RefIds(refs), CategoryStored(cats))
      && forall j :: 0 <= j < |r'| ==> FindByKey(cats, CategoryKey, r'[j].id) == Some(r'[j])
  {
    PopulateRefsKeys(refs, cats, r, found);
    if found.Some? {
      assert found.value.id == refs[|refs| - 1].value;
    }
    PopulateRefsFound(cats, r, found);
  }

  lemma PopulateRefsFound(cats: seq<Category>, r: seq<Category>, found: Option<Category>)
    requires forall j :: 0 <= j < |r| ==> FindByKey(cats, CategoryKey, r[j].id) == Some(r[j])
    requires found.Some? ==> FindByKey(cats, CategoryKey, found.value.id) == found
    ensures var r' := r + (if found.Some? then [found.value] else []);
      forall j :: 0 <= j < |r'| ==> FindByKey(cats, CategoryKey, r'[j].id) == Some(r'[j])
  {
    if found.Some? {
      var r' := r + [found.value];
      forall j | 0 <= j < |r'| ensures FindByKey(cats, CategoryKey, r'[j].id) == Some(r'[j]) {
        if j < |r| {
          assert r'[j] == r[j];
        }
      }
    } else {
      assert r + [] == r;
    }
  }

  lemma PopulateRefsKeys(refs: seq<Option<Id>>, cats: seq<Category>, r: seq<Category>, found: Option<Category>)
    requires refs != []
    requires Keys(r, CategoryKey) == Filter(RefIds(refs[..|refs| - 1]), CategoryStored(cats))
    requires found == if refs[|refs| - 1].Some? then FindByKey(cats, CategoryKey, refs[|refs| - 1].value) else None
    ensures Keys(r + (if found.Some? then [found.value] else []), CategoryKey) == Filter(RefIds(refs), CategoryStored(cats))
  {
    var init, last := refs[..|refs| - 1], refs[|refs| - 1];
    var ks := Filter(RefIds(init), CategoryStored(cats));
    if last.None? {
      assert RefIds(refs) == RefIds(init) + [];
      assert RefIds(init) + [] == RefIds(init);
      assert r + [] == r;
    } else {
      assert RefIds(refs) == RefIds(init) + [last.value];
      FilterAppend(RefIds(init), last.value, CategoryStored(cats));
      if found.None? {
        assert !CategoryStored(cats)(last.value);
        assert ks + [] == ks;
        assert r + [] == r;
      } else {
        assert CategoryStored(cats)(last.value);
        KeysSnoc(r, found.value);
        assert found.value.id == last.value;
      }
    }
  }

  /** What the edit form is rendered with. */
  datatype EditView = EditView(adminUser: bool, selectedCategories: seq<string>)

  /** Lines 230-238: the titles of the monument's populated categories, in order. */
  method SelectedCategoryTitles(selectedCategories: seq<Category>) returns (selectedCategoryTitles: seq<string>)
    ensures |selectedCategoryTitles| == |selectedCategories|
    ensures forall i :: 0 <= i < |selectedCategories| ==> selectedCategoryTitles[i] == selectedCategories[i].title
  {
    selectedCategoryTitles := [];
    if |selectedCategories| != 0 {
      var i := 0;
      while i < |selectedCategories|
        invariant 0 <= i <= |selectedCategories|
        invariant |selectedCategoryTitles| == i
        invariant forall j :: 0 <= j < i ==> selectedCategoryTitles[j] == selectedCategories[j].title
      {
        selectedCategoryTitles := selectedCategoryTitles + [selectedCategories[i].title];
        i := i + 1;
      }
    }
  }

  /** `editMonumentView.handler`: the Admin flag of the signed-in user and the
      titles of the monument's categories. A missing user or monument throws. */
  method EditMonumentView(db: Database, userId: Id, monumentId: Id) returns (r: Result<EditView>)
    ensures FindByKey(db.users, UserKey, userId).None? ==> r == Err(TypeError)
    ensures FindByKey(db.users, UserKey, userId).Some? && FindByKey(db.monuments, MonumentKey, monumentId).None? ==> r == Err(TypeError)
    ensures FindByKey(db.users, UserKey, userId).Some? && FindByKey(db.monuments, MonumentKey, monumentId).Some? ==>
      r == Ok(EditView(FindByKey(db.users, UserKey, userId).value.userType == Some("Admin"),
                       Column(PopulateRefs(FindByKey(db.monuments, MonumentKey, monumentId).value.categories, db.categories), CategoryTitle)))
  {
    var user := FindByKey(db.users, UserKey, userId);
    if user.None? {
      return Err(TypeError);
    }
    var adminUser := false;
    if user.value.userType == Some("Admin") {
      adminUser := true;
    }
    var monument := FindByKey(db.monuments, MonumentKey, monumentId);
    if monument.None? {
      return Err(TypeError);
    }
    var titles := SelectedCategoryTitles(PopulateRefs(monument.value.categories, db.categories));
    assert titles == Column(PopulateRefs(monument.value.categories, db.categories), CategoryTitle);
    r := Ok(EditView(adminUser, titles));
  }
}
