/** Category reconciliation: the services that look up or create categories,
    append a monument's id to their member lists, pull it out again on edit
    and delete, and split the table into the four provinces and the rest. */
module CategoryFunctionality {
  import opened Wrappers
  import opened Tables
  import opened Records
  import opened Store

  /** The `category` field of a monument form: no box ticked, a single title, or several. */
  datatype CategoryInput = Absent | One(title: string) | Several(titles: seq<string>)

  /** A category whose member ids are replaced by the monument documents (`populate("monuments")`). */
  datatype CategoryView = CategoryView(id: Id, title: string, monuments: seq<Monument>)

  /** The category table and id counter threaded through a reconciliation,
      with the category ids collected for the monument so far. */
  datatype Tally = Tally(cats: seq<Category>, next: Id, ids: seq<Id>)

  // ----- Populated queries -----

  const InProvince: Category -> bool := (c: Category) => IsProvince(c.title)
  const NotInProvince: Category -> bool := (c: Category) => !IsProvince(c.title)

  /** `Category.find({ title: { $in: provinces } })`. */
  function ProvincePart(cats: seq<Category>): seq<Category> {
    Filter(cats, InProvince)
  }

  /** `Category.find({ title: { $nin: provinces } })`. */
  function OtherPart(cats: seq<Category>): seq<Category> {
    Filter(cats, NotInProvince)
  }

  function StoredIn(ms: seq<Monument>): Id -> bool {
    (id: Id) => id in Keys(ms, MonumentKey)
  }

  /** `populate` of a member list: the stored monuments for the ids, in member
      order; an id without a stored monument is dropped. */
  function PopulateIds(ids: seq<Id>, ms: seq<Monument>): (r: seq<Monument>)
    ensures forall x :: x in r ==> x in ms
    ensures Keys(r, MonumentKey) == Filter(ids, StoredIn(ms))
    decreases |ids|
  {
    if ids == [] then []
    else
      var init, last := ids[..|ids| - 1], ids[|ids| - 1];
      assert ids == init + [last];
      FilterAppend(init, last, StoredIn(ms));
      var found := FindByKey(ms, MonumentKey, last);
      var r := PopulateIds(init, ms) + (if found.Some? then [found.value] else []);
      assert Keys(r, MonumentKey) == Keys(PopulateIds(init, ms), MonumentKey) + (if found.Some? then [last] else []);
      r
  }

  function View(c: Category, ms: seq<Monument>): (v: CategoryView)
    ensures v.id == c.id && v.title == c.title
    ensures Keys(v.monuments, MonumentKey) == Filter(c.monuments, StoredIn(ms))
  {
    CategoryView(c.id, c.title, PopulateIds(c.monuments, ms))
  }

  function Views(cats: seq<Category>, ms: seq<Monument>): (r: seq<CategoryView>)
    ensures |r| == |cats| && forall i :: 0 <= i < |cats| ==> r[i] == View(cats[i], ms)
  {
    seq(|cats|, i requires 0 <= i < |cats| => View(cats[i], ms))
  }

  /** A list of views shows exactly the listed categories. */
  lemma WhereViews(part: seq<Category>, ms: seq<Monument>)
    ensures forall v :: v in Views(part, ms) ==> exists c :: c in part && v == View(c, ms)
    ensures forall c :: c in part ==> View(c, ms) in Views(part, ms)
  {
    var r := Views(part, ms);
    forall v | v in r ensures exists c :: c in part && v == View(c, ms) {
      var k :| 0 <= k < |r| && r[k] == v;
      assert part[k] in part;
    }
    forall c | c in part ensures View(c, ms) in r {
      var k :| 0 <= k < |part| && part[k] == c;
      assert r[k] == View(c, ms);
    }
  }

  /** `findProvinceCategories`: the categories titled with one of the four
      provinces, in table order, each with its monuments populated. */
  function FindProvinceCategories(cats: seq<Category>, ms: seq<Monument>): (r: seq<CategoryView>)
    ensures forall v :: v in r ==> IsProvince(v.title) && exists c :: c in cats && v == View(c, ms)
    ensures forall c :: c in cats && IsProvince(c.title) ==> View(c, ms) in r
  {
    var part := ProvincePart(cats);
    var r := Views(part, ms);
    WhereViews(part, ms);
    r
  }

  /** `findAllOtherCategories`: every category not titled with a province, in
      table order, each with its monuments populated. */
  function FindAllOtherCategories(cats: seq<Category>, ms: seq<Monument>): (r: seq<CategoryView>)
    ensures forall v :: v in r ==> !IsProvince(v.title) && exists c :: c in cats && v == View(c, ms)
    ensures forall c :: c in cats && !IsProvince(c.title) ==> View(c, ms) in r
  {
    var part := OtherPart(cats);
    var r := Views(part, ms);
    WhereViews(part, ms);
    r
  }

  /** The two queries split the table: every category lands in exactly one of
      them, as often as it is stored. */
  lemma CategoriesPartition(cats: seq<Category>, ms: seq<Monument>)
    ensures |FindProvinceCategories(cats, ms)| + |FindAllOtherCategories(cats, ms)| == |cats|
    ensures multiset(ProvincePart(cats)) + multiset(OtherPart(cats)) == multiset(cats)
    ensures forall c :: c in cats ==> (c in ProvincePart(cats) <==> c !in OtherPart(cats))
  {
    FilterPartition(cats, InProvince, NotInProvince);
  }

  // ----- Pulling and pushing one monument id -----

  /** `pullPriorMonumentIds`: used before an edit re-files the monument. */
  method PullPriorMonumentIds(db: Database, monumentId: Id)
    requires db.Valid()
    modifies db`categories
    ensures db.Valid()
    ensures db.categories == PullEverywhere(old(db.categories), monumentId)
  {
    db.PullFromAll(monumentId);
  }

  /** `removeMonumentId`: used when the monument is deleted. */
  method RemoveMonumentId(db: Database, recordId: Id)
    requires db.Valid()
    modifies db`categories
    ensures db.Valid()
    ensures db.categories == PullEverywhere(old(db.categories), recordId)
  {
    db.PullFromAll(recordId);
  }

  /** `editMonumentProvince`. */
  method EditMonumentProvince(db: Database, province: string, monumentId: Id)
    requires db.Valid()
    modifies db`categories
    ensures db.Valid()
    ensures db.categories == PushFirstTitled(old(db.categories), province, monumentId)
  {
    db.PushToFirstTitled(province, monumentId);
  }

  /** Saving the first category a title query returned is the same as pushing
      to the first category with that title, because ids are unique. */
  lemma {:induction false} PushToFoundIsPushFirst(cats: seq<Category>, next: Id, t: string, m: Id)
    requires KeysValid(cats, CategoryKey, next)
    requires WithTitle(cats, t) != []
    ensures PushById(cats, WithTitle(cats, t)[0].id, m) == PushFirstTitled(cats, t, m)
  {
    FilterHead(cats, TitleIs(t));
    var k := FirstIndex(cats, TitleIs(t)).value;
    var a, b := PushById(cats, cats[k].id, m), PushFirstTitled(cats, t, m);
    forall i | 0 <= i < |cats| ensures a[i] == b[i] {
      if i != k {
        assert Keys(cats, CategoryKey)[i] != Keys(cats, CategoryKey)[k];
      }
    }
  }

  /** The category table and counter after filing a monument under its
      province, with the id `addMonumentProvinceCategory` hands back. */
  datatype Filed = Filed(cats: seq<Category>, next: Id, id: Option<Id>)

  /** What `addMonumentProvinceCategory(province, m)` does and returns. */
  function ProvinceSpec(cats: seq<Category>, next: Id, province: string, m: Id): Filed {
    if WithTitle(cats, province) == [] then Filed(cats + [Category(next, province, [m])], next + 1, Some(next))
    else Filed(PushFirstTitled(cats, province, m), next, None)
  }

  /** `addMonumentProvinceCategory`. The result is `category._id`: the new
      category's id when one is created, and `undefined` (the `_id` of the
      query's result array) when the province category exists already. */
  method AddMonumentProvinceCategory(db: Database, province: string, monumentId: Id) returns (r: Option<Id>)
    requires db.Valid()
    modifies db`categories, db`nextId
    ensures db.Valid()
    ensures Filed(db.categories, db.nextId, r) == ProvinceSpec(old(db.categories), old(db.nextId), province, monumentId)
  {
    var category := WithTitle(db.categories, province);
    if |category| == 0 {
      var id := db.InsertCategory(province, [monumentId]);
      r := Some(id);
    } else {
      PushToFoundIsPushFirst(db.categories, db.nextId, province, monumentId);
      db.PushToCategory(category[0].id, monumentId);
      r := None;
    }
  }

  // ----- Reconciliation specifications -----

  /** A new category `{ title: t, monuments: [m] }` under the next id, which is collected. */
  function Create(s: Tally, t: string, m: Id): Tally {
    Tally(s.cats + [Category(s.next, t, [m])], s.next + 1, s.ids + [s.next])
  }

  /** Append `m` to the first found category and collect its id, or create one when nothing was found. */
  function LookupOrCreate(s: Tally, found: seq<Category>, t: string, m: Id): Tally {
    if found == [] then Create(s, t, m)
    else Tally(PushById(s.cats, found[0].id, m), s.next, s.ids + [found[0].id])
  }

  /** `m` pushed onto every category whose id is listed, once per listing. */
  function PushAll(cats: seq<Category>, ids: seq<Id>, m: Id): (r: seq<Category>)
    ensures |r| == |cats|
    decreases |ids|
  {
    if ids == [] then cats
    else PushById(PushAll(cats, ids[..|ids| - 1], m), ids[|ids| - 1], m)
  }

  /** One step of the per-title walk of `addMonumentAdditionalCategories`:
      a title with exactly one category reuses it, any other gets a new one. */
  function AddTitleStep(s: Tally, t: string, m: Id): Tally {
    var found := WithTitle(s.cats, t);
    LookupOrCreate(s, if |found| == 1 then found else [], t, m)
  }

  function AddTitles(s: Tally, ts: seq<string>, m: Id): Tally
    decreases |ts|
  {
    if ts == [] then s
    else AddTitleStep(AddTitles(s, ts[..|ts| - 1], m), ts[|ts| - 1], m)
  }

  function OtherTitled(t: string): Category -> bool {
    (c: Category) => c.title == t && !IsProvince(c.title)
  }

  function OtherTitledIn(ts: seq<string>): Category -> bool {
    (c: Category) => c.title in ts && !IsProvince(c.title)
  }

  /** What `addMonumentAdditionalCategories(input, m)` does to the table and returns. */
  function AddAdditionalSpec(cats: seq<Category>, next: Id, input: CategoryInput, m: Id): Tally {
    var start := Tally(cats, next, []);
    match input
    case Absent => start
    case One(t) => LookupOrCreate(start, Filter(cats, OtherTitled(t)), t, m)
    case Several(ts) =>
      var q := Filter(cats, OtherTitledIn(ts));
      if |q| == |ts| then Tally(PushAll(cats, Keys(q, CategoryKey), m), next, Keys(q, CategoryKey))
      else AddTitles(start, ts, m)
  }

  /** One step of the first loop of `editMonumentAdditionalCategories`, for one
      non-province category `o` of the snapshot taken before the loop. */
  function RetainStep(s: Tally, o: Category, ts: seq<string>, m: Id): Tally {
    var found := WithTitle(s.cats, o.title);
    if |found| > 0 && o.title in ts then Tally(PushFirstTitled(s.cats, o.title, m), s.next, s.ids + [found[0].id])
    else s
  }

  function Retain(s: Tally, os: seq<Category>, ts: seq<string>, m: Id): Tally
    decreases |os|
  {
    if os == [] then s
    else RetainStep(Retain(s, os[..|os| - 1], ts, m), os[|os| - 1], ts, m)
  }

  /** One step of the second loop: a title without exactly one category gets a new one. */
  function CreateStep(s: Tally, t: string, m: Id): Tally {
    if |WithTitle(s.cats, t)| == 1 then s else Create(s, t, m)
  }

  function CreateMissing(s: Tally, ts: seq<string>, m: Id): Tally
    decreases |ts|
  {
    if ts == [] then s
    else CreateStep(CreateMissing(s, ts[..|ts| - 1], m), ts[|ts| - 1], m)
  }

  /** What `editMonumentAdditionalCategories(input, m)` does to the table and returns. */
  function EditAdditionalSpec(cats: seq<Category>, next: Id, input: CategoryInput, m: Id): Tally {
    var start := Tally(cats, next, []);
    match input
    case Absent => start
    case One(t) => LookupOrCreate(start, WithTitle(cats, t), t, m)
    case Several(ts) => CreateMissing(Retain(start, OtherPart(cats), ts, m), ts, m)
  }

  // ----- What a reconciliation guarantees -----

  /** Some category has id `id`, a title from `ts`, and `m` among its members. */
  ghost predicate Linked(cats: seq<Category>, id: Id, ts: seq<string>, m: Id) {
    exists k :: 0 <= k < |cats| && cats[k].id == id && cats[k].title in ts && m in cats[k].monuments
  }

  /** `b` keeps every category of `a` in place with its id, its title and its
      members as a prefix; new categories only come at the end. */
  ghost predicate Grows(a: seq<Category>, b: seq<Category>) {
    && |a| <= |b|
    && forall k :: 0 <= k < |a| ==> b[k].id == a[k].id && b[k].title == a[k].title && a[k].monuments <= b[k].monuments
  }

  /** `r` continues `s`: the table only grows, the counter only rises, the ids
      collected before are kept, and each id collected since names a category
      with a title from `ts` that holds `m`. */
  ghost predicate Extends(s: Tally, r: Tally, ts: seq<string>, m: Id) {
    && Grows(s.cats, r.cats) && s.next <= r.next
    && |s.ids| <= |r.ids| && r.ids[..|s.ids|] == s.ids
    && forall i :: |s.ids| <= i < |r.ids| ==> Linked(r.cats, r.ids[i], ts, m)
  }

  lemma LinkedGrows(a: seq<Category>, b: seq<Category>, id: Id, ts: seq<string>, m: Id)
    requires Linked(a, id, ts, m) && Grows(a, b)
    ensures Linked(b, id, ts, m)
  {
    var k :| 0 <= k < |a| && a[k].id == id && a[k].title in ts && m in a[k].monuments;
    var j :| 0 <= j < |a[k].monuments| && a[k].monuments[j] == m;
    assert b[k].monuments[j] == m;
  }

  lemma GrowsTrans(a: seq<Category>, b: seq<Category>, c: seq<Category>)
    requires Grows(a, b) && Grows(b, c)
    ensures Grows(a, c)
  {
    forall k | 0 <= k < |a| ensures a[k].monuments <= c[k].monuments {
      assert a[k].monuments == b[k].monuments[..|a[k].monuments|];
      assert b[k].monuments == c[k].monuments[..|b[k].monuments|];
    }
  }

  lemma ExtendsTrans(a: Tally, b: Tally, c: Tally, ts: seq<string>, m: Id)
    requires Extends(a, b, ts, m) && Extends(b, c, ts, m)
    ensures Extends(a, c, ts, m)
  {
    GrowsTrans(a.cats, b.cats, c.cats);
    forall i | |a.ids| <= i < |c.ids| ensures Linked(c.cats, c.ids[i], ts, m) {
      if i < |b.ids| {
        assert c.ids[i] == b.ids[i];
        LinkedGrows(b.cats, c.cats, b.ids[i], ts, m);
      }
    }
    assert c.ids[..|a.ids|] == c.ids[..|b.ids|][..|a.ids|];
  }

  lemma ExtendsWider(s: Tally, r: Tally, ts: seq<string>, us: seq<string>, m: Id)
    requires Extends(s, r, ts, m) && forall t :: t in ts ==> t in us
    ensures Extends(s, r, us, m)
  {
    forall i | |s.ids| <= i < |r.ids| ensures Linked(r.cats, r.ids[i], us, m) {
      var k :| 0 <= k < |r.cats| && r.cats[k].id == r.ids[i] && r.cats[k].title in ts && m in r.cats[k].monuments;
    }
  }

  lemma PushByIdGrows(cats: seq<Category>, id: Id, m: Id)
    ensures Grows(cats, PushById(cats, id, m))
    ensures forall k :: 0 <= k < |cats| && cats[k].id == id ==> m in PushById(cats, id, m)[k].monuments
  {
    var r := PushById(cats, id, m);
    forall k | 0 <= k < |cats| && cats[k].id == id ensures m in r[k].monuments {
      assert r[k].monuments[|cats[k].monuments|] == m;
    }
  }

  /** Looking up or creating collects exactly one id, naming a category titled
      `t` that now holds `m`: the first found category when there is one, with
      no category created and no id used up; a new `{ t, [m] }` under the next
      id only when nothing was found. */
  lemma LookupOrCreateLinks(s: Tally, found: seq<Category>, t: string, m: Id)
    requires forall c :: c in found ==> c in s.cats && c.title == t
    ensures Extends(s, LookupOrCreate(s, found, t, m), [t], m)
    ensures |LookupOrCreate(s, found, t, m).ids| == |s.ids| + 1
    ensures found != [] ==> var r := LookupOrCreate(s, found, t, m);
      r.cats == PushById(s.cats, found[0].id, m) && r.next == s.next && r.ids == s.ids + [found[0].id]
    ensures found == [] ==> var r := LookupOrCreate(s, found, t, m);
      r.cats == s.cats + [Category(s.next, t, [m])] && r.next == s.next + 1 && r.ids == s.ids + [s.next]
  {
    var r := LookupOrCreate(s, found, t, m);
    if found == [] {
      assert r.cats[|s.cats|].monuments == [m];
      assert Linked(r.cats, r.ids[|s.ids|], [t], m);
    } else {
      PushByIdGrows(s.cats, found[0].id, m);
      assert found[0] in found;
      var k :| 0 <= k < |s.cats| && s.cats[k] == found[0];
      assert r.cats[k].title == t;
      assert Linked(r.cats, r.ids[|s.ids|], [t], m);
    }
    assert r.ids[..|s.ids|] == s.ids;
  }

  /** With unique ids, pushing onto the id of a stored category changes that
      category alone: it gains `m` at the end of its members. */
  lemma PushFoundOnly(cats: seq<Category>, next: Id, c: Category, m: Id)
    requires KeysValid(cats, CategoryKey, next) && c in cats
    ensures forall k :: 0 <= k < |cats| ==> PushById(cats, c.id, m)[k] == if cats[k] == c then Pushed(cats[k], m) else cats[k]
  {
    var j :| 0 <= j < |cats| && cats[j] == c;
    forall k | 0 <= k < |cats| && cats[k].id == c.id ensures cats[k] == c {
      assert Keys(cats, CategoryKey)[k] == Keys(cats, CategoryKey)[j];
    }
  }

  /** One title of the walk: a title with exactly one category reuses it;
      any other title gets a new `{ t, [m] }` under the next id. */
  lemma AddTitleStepLinks(s: Tally, t: string, m: Id)
    ensures Extends(s, AddTitleStep(s, t, m), [t], m)
    ensures |AddTitleStep(s, t, m).ids| == |s.ids| + 1
    ensures var f, r := WithTitle(s.cats, t), AddTitleStep(s, t, m);
      && (|f| == 1 ==> r.cats == PushById(s.cats, f[0].id, m) && r.next == s.next && r.ids == s.ids + [f[0].id])
      && (|f| != 1 ==> r.cats == s.cats + [Category(s.next, t, [m])] && r.next == s.next + 1 && r.ids == s.ids + [s.next])
  {
    var found := WithTitle(s.cats, t);
    LookupOrCreateLinks(s, if |found| == 1 then found else [], t, m);
  }

  /** The per-title walk collects one id per title, each naming a category
      with one of the titles that now holds `m`. */
  lemma {:induction false} AddTitlesLinks(s: Tally, ts: seq<string>, m: Id)
    ensures Extends(s, AddTitles(s, ts, m), ts, m)
    ensures |AddTitles(s, ts, m).ids| == |s.ids| + |ts|
    decreases |ts|
  {
    if ts == [] {
      assert s.ids[..|s.ids|] == s.ids;
    } else {
      var init, t := ts[..|ts| - 1], ts[|ts| - 1];
      var p := AddTitles(s, init, m);
      AddTitlesLinks(s, init, m);
      AddTitleStepLinks(p, t, m);
      ExtendsWider(s, p, init, ts, m);
      ExtendsWider(p, AddTitleStep(p, t, m), [t], ts, m);
      ExtendsTrans(s, p, AddTitleStep(p, t, m), ts, m);
    }
  }

  /** The facts about one title step that the ordering proof uses. */
  lemma AddTitleStepLast(p: Tally, t: string, m: Id)
    ensures var r := AddTitleStep(p, t, m);
      && |r.ids| == |p.ids| + 1 && r.ids[..|p.ids|] == p.ids
      && Grows(p.cats, r.cats) && Linked(r.cats, r.ids[|p.ids|], [t], m)
  {
    AddTitleStepLinks(p, t, m);
  }

  /** ... and in title order: the `i`-th collected id names a category titled `ts[i]`. */
  lemma {:induction false} AddTitlesInOrder(s: Tally, ts: seq<string>, m: Id)
    ensures |AddTitles(s, ts, m).ids| == |s.ids| + |ts|
    ensures forall i :: 0 <= i < |ts| ==> Linked(AddTitles(s, ts, m).cats, AddTitles(s, ts, m).ids[|s.ids| + i], [ts[i]], m)
    decreases |ts|
  {
    if ts != [] {
      var init, t := ts[..|ts| - 1], ts[|ts| - 1];
      var p := AddTitles(s, init, m);
      var r := AddTitleStep(p, t, m);
      AddTitlesInOrder(s, init, m);
      AddTitleStepLast(p, t, m);
      forall i | 0 <= i < |ts| ensures Linked(r.cats, r.ids[|s.ids| + i], [ts[i]], m) {
        if i < |init| {
          var j := |s.ids| + i;
          assert ts[i] == init[i];
          assert r.ids[j] == r.ids[..|p.ids|][j] == p.ids[j];
          LinkedGrows(p.cats, r.cats, p.ids[j], [init[i]], m);
        }
      }
    }
  }

  // ----- Which titles reuse a category and which create one -----

  /** Two tables of the same length whose categories agree on id and title. */
  ghost predicate SameShape(a: seq<Category>, b: seq<Category>) {
    |a| == |b| && forall k :: 0 <= k < |a| ==> a[k].id == b[k].id && a[k].title == b[k].title
  }

  /** Tables of the same shape have the same categories under each title. */
  lemma {:induction false} WithTitleShape(a: seq<Category>, b: seq<Category>, t: string)
    requires SameShape(a, b)
    ensures Keys(WithTitle(a, t), CategoryKey) == Keys(WithTitle(b, t), CategoryKey)
    decreases |a|
  {
    if a != [] {
      var n := |a| - 1;
      var a0, b0 := a[..n], b[..n];
      assert SameShape(a0, b0);
      WithTitleShape(a0, b0, t);
      KeysOfTitledAppend(a0, a[n], t);
      KeysOfTitledAppend(b0, b[n], t);
      assert a == a0 + [a[n]] && b == b0 + [b[n]];
    }
  }

  lemma KeysOfTitledAppend(a: seq<Category>, c: Category, t: string)
    ensures Keys(WithTitle(a + [c], t), CategoryKey)
         == Keys(WithTitle(a, t), CategoryKey) + (if c.title == t then [c.id] else [])
  {
    FilterAppend(a, c, TitleIs(t));
    KeysSnoc(WithTitle(a, t), c);
  }

  lemma KeysSnoc(f: seq<Category>, c: Category)
    ensures Keys(f + [c], CategoryKey) == Keys(f, CategoryKey) + [c.id]
  {
    var l, r := Keys(f + [c], CategoryKey), Keys(f, CategoryKey) + [c.id];
    assert |l| == |r|;
    forall i | 0 <= i < |l| ensures l[i] == r[i] {
      if i < |f| {
        assert (f + [c])[i] == f[i];
      }
    }
  }

  lemma GrowsSameShape(a: seq<Category>, b: seq<Category>)
    requires Grows(a, b) && |a| == |b|
    ensures SameShape(a, b)
  {
  }

  /** A step of the walk for another title leaves the categories titled `t` where they are. */
  lemma TitleStepOther(p: Tally, u: string, m: Id, t: string)
    requires u != t
    ensures Keys(WithTitle(AddTitleStep(p, u, m).cats, t), CategoryKey) == Keys(WithTitle(p.cats, t), CategoryKey)
  {
    var found := WithTitle(p.cats, u);
    if |found| == 1 {
      PushByIdGrows(p.cats, found[0].id, m);
      GrowsSameShape(p.cats, AddTitleStep(p, u, m).cats);
      WithTitleShape(p.cats, AddTitleStep(p, u, m).cats, t);
    } else {
      FilterAppend(p.cats, Category(p.next, u, [m]), TitleIs(t));
    }
  }

  /** A step of the walk for `t` itself: the one category titled `t` is reused
      and stays the only one; otherwise a new category titled `t` is appended. */
  lemma TitleStepSame(p: Tally, t: string, m: Id)
    ensures var f, r := WithTitle(p.cats, t), AddTitleStep(p, t, m);
      && (|f| == 1 ==> Keys(WithTitle(r.cats, t), CategoryKey) == Keys(f, CategoryKey) && r.ids == p.ids + [f[0].id])
      && (|f| != 1 ==> WithTitle(r.cats, t) == f + [Category(p.next, t, [m])] && r.ids == p.ids + [p.next])
  {
    var f := WithTitle(p.cats, t);
    if |f| == 1 {
      PushByIdGrows(p.cats, f[0].id, m);
      GrowsSameShape(p.cats, AddTitleStep(p, t, m).cats);
      WithTitleShape(p.cats, AddTitleStep(p, t, m).cats, t);
    } else {
      FilterAppend(p.cats, Category(p.next, t, [m]), TitleIs(t));
    }
  }

  /** A step of the walk appends one id and never lowers the counter. */
  lemma TitleStepIds(p: Tally, x: string, m: Id)
    ensures var r := AddTitleStep(p, x, m);
      |r.ids| == |p.ids| + 1 && r.ids[..|p.ids|] == p.ids && r.next >= p.next
  {
    var f, r := WithTitle(p.cats, x), AddTitleStep(p, x, m);
    if |f| == 1 {
      assert r.ids == p.ids + [f[0].id];
    } else {
      assert r.ids == p.ids + [p.next];
    }
    assert r.ids[..|p.ids|] == p.ids;
  }

  /** The walk collects one id per title and never lowers the counter. */
  lemma {:induction false} AddTitlesCount(s: Tally, ts: seq<string>, m: Id)
    ensures |AddTitles(s, ts, m).ids| == |s.ids| + |ts| && AddTitles(s, ts, m).next >= s.next
    decreases |ts|
  {
    if ts != [] {
      AddTitlesCount(s, ts[..|ts| - 1], m);
      TitleStepIds(AddTitles(s, ts[..|ts| - 1], m), ts[|ts| - 1], m);
    }
  }

  /** A title with exactly one category before the walk reuses that category
      at every occurrence and never gets a second one. */
  lemma {:induction false} AddTitlesReuse(s: Tally, ts: seq<string>, m: Id, t: string)
    requires |WithTitle(s.cats, t)| == 1
    ensures var r, u := AddTitles(s, ts, m), WithTitle(s.cats, t)[0].id;
      && |r.ids| == |s.ids| + |ts|
      && |WithTitle(r.cats, t)| == 1 && WithTitle(r.cats, t)[0].id == u
      && forall i :: 0 <= i < |ts| && ts[i] == t ==> r.ids[|s.ids| + i] == u
    decreases |ts|
  {
    if ts != [] {
      var init, x := ts[..|ts| - 1], ts[|ts| - 1];
      var p := AddTitles(s, init, m);
      var r, u := AddTitleStep(p, x, m), WithTitle(s.cats, t)[0].id;
      AddTitlesReuse(s, init, m, t);
      AddTitlesCount(s, init, m);
      TitleStepIds(p, x, m);
      TitleStepKeeps(p, x, m, t);
      forall i | 0 <= i < |ts| && ts[i] == t ensures r.ids[|s.ids| + i] == u {
        if i < |init| {
          assert init[i] == t;
          assert r.ids[|s.ids| + i] == r.ids[..|p.ids|][|s.ids| + i];
        }
      }
    }
  }

  /** A title without any category before the walk and not listed in it stays without one. */
  lemma {:induction false} AddTitlesAbsent(s: Tally, ts: seq<string>, m: Id, t: string)
    requires WithTitle(s.cats, t) == [] && t !in ts
    ensures WithTitle(AddTitles(s, ts, m).cats, t) == []
    decreases |ts|
  {
    if ts != [] {
      var init, x := ts[..|ts| - 1], ts[|ts| - 1];
      assert ts == init + [x];
      AddTitlesAbsent(s, init, m, t);
      TitleStepOther(AddTitles(s, init, m), x, m, t);
    }
  }

  /** A step for a title without a category creates its only category under the next id. */
  lemma TitleStepCreates(p: Tally, t: string, m: Id)
    requires WithTitle(p.cats, t) == []
    ensures var r := AddTitleStep(p, t, m);
      |WithTitle(r.cats, t)| == 1 && WithTitle(r.cats, t)[0].id == p.next && r.ids == p.ids + [p.next]
  {
    TitleStepSame(p, t, m);
  }

  /** Any step keeps the only category of a title, and a step for that title collects it. */
  lemma TitleStepKeeps(p: Tally, x: string, m: Id, t: string)
    requires |WithTitle(p.cats, t)| == 1
    ensures var r, u := AddTitleStep(p, x, m), WithTitle(p.cats, t)[0].id;
      && |WithTitle(r.cats, t)| == 1 && WithTitle(r.cats, t)[0].id == u
      && (x == t ==> r.ids == p.ids + [u])
  {
    var r := AddTitleStep(p, x, m);
    if x == t {
      TitleStepSame(p, t, m);
    } else {
      TitleStepOther(p, x, m, t);
    }
    assert Keys(WithTitle(p.cats, t), CategoryKey)[0] == WithTitle(p.cats, t)[0].id;
    assert Keys(WithTitle(r.cats, t), CategoryKey)[0] == WithTitle(r.cats, t)[0].id;
  }

  /** A listed title without any category before the walk: its first
      occurrence creates a category under a fresh id, which stays the only one
      with that title, and every occurrence collects it. */
  lemma {:induction false} AddTitlesCreateOnce(s: Tally, ts: seq<string>, m: Id, t: string)
    requires WithTitle(s.cats, t) == [] && t in ts
    ensures CreatedOnce(s, ts, AddTitles(s, ts, m), t)
    decreases |ts|
  {
    var init, x := ts[..|ts| - 1], ts[|ts| - 1];
    assert ts == init + [x];
    if t !in init {
      CreatedAtLast(s, init, m, t);
    } else {
      AddTitlesCreateOnce(s, init, m, t);
      CreatedStaysOnce(s, init, x, m, t);
    }
  }

  /** After the walk over `ts`, the title `t` has one category, under an id
      from `s.next` on, and every occurrence of `t` collected it. */
  ghost predicate CreatedOnce(s: Tally, ts: seq<string>, r: Tally, t: string) {
    && |r.ids| == |s.ids| + |ts|
    && |WithTitle(r.cats, t)| == 1 && WithTitle(r.cats, t)[0].id >= s.next
    && forall i :: 0 <= i < |ts| && ts[i] == t ==> r.ids[|s.ids| + i] == WithTitle(r.cats, t)[0].id
  }

  lemma CreatedAtLast(s: Tally, init: seq<string>, m: Id, t: string)
    requires WithTitle(s.cats, t) == [] && t !in init
    ensures CreatedOnce(s, init + [t], AddTitles(s, init + [t], m), t)
  {
    var ts := init + [t];
    var p := AddTitles(s, init, m);
    assert ts[..|ts| - 1] == init;
    AddTitlesCount(s, init, m);
    AddTitlesAbsent(s, init, m, t);
    TitleStepCreates(p, t, m);
    assert forall j :: 0 <= j < |init| ==> ts[j] != t by {
      assert forall j :: 0 <= j < |init| ==> ts[j] == init[j] && init[j] in init;
    }
  }

  lemma CreatedStaysOnce(s: Tally, init: seq<string>, x: string, m: Id, t: string)
    requires CreatedOnce(s, init, AddTitles(s, init, m), t)
    ensures CreatedOnce(s, init + [x], AddTitles(s, init + [x], m), t)
  {
    var ts := init + [x];
    var p := AddTitles(s, init, m);
    assert ts[..|ts| - 1] == init;
    var r, v := AddTitleStep(p, x, m), WithTitle(p.cats, t)[0].id;
    TitleStepKeeps(p, x, m, t);
    TitleStepIds(p, x, m);
    forall i | 0 <= i < |ts| && ts[i] == t ensures r.ids[|s.ids| + i] == v {
      if i < |init| {
        assert init[i] == t;
        assert r.ids[|s.ids| + i] == r.ids[..|p.ids|][|s.ids| + i];
      }
    }
  }

  /** A step for a title with two or more categories creates one more; any other step keeps them. */
  lemma TitleStepAmbiguous(p: Tally, x: string, m: Id, t: string)
    requires |WithTitle(p.cats, t)| >= 2
    ensures var r := AddTitleStep(p, x, m);
      && |WithTitle(r.cats, t)| == |WithTitle(p.cats, t)| + (if x == t then 1 else 0)
      && (x == t ==> r.ids == p.ids + [p.next])
  {
    if x == t {
      TitleStepSame(p, t, m);
    } else {
      TitleStepOther(p, x, m, t);
    }
  }

  /** A title with two or more categories before the walk gets a new category,
      under a fresh id, at every occurrence. */
  lemma {:induction false} AddTitlesAmbiguous(s: Tally, ts: seq<string>, m: Id, t: string)
    requires |WithTitle(s.cats, t)| >= 2
    ensures var r := AddTitles(s, ts, m);
      && |r.ids| == |s.ids| + |ts|
      && |WithTitle(r.cats, t)| == |WithTitle(s.cats, t)| + multiset(ts)[t]
      && forall i :: 0 <= i < |ts| && ts[i] == t ==> r.ids[|s.ids| + i] >= s.next
    decreases |ts|
  {
    if ts != [] {
      var init, x := ts[..|ts| - 1], ts[|ts| - 1];
      var p := AddTitles(s, init, m);
      var r := AddTitleStep(p, x, m);
      assert AddTitles(s, ts, m) == r;
      assert ts == init + [x];
      AddTitlesAmbiguous(s, init, m, t);
      AddTitlesCount(s, init, m);
      TitleStepIds(p, x, m);
      TitleStepAmbiguous(p, x, m, t);
      forall i | 0 <= i < |ts| && ts[i] == t ensures r.ids[|s.ids| + i] >= s.next {
        if i < |init| {
          assert init[i] == t;
          assert r.ids[|s.ids| + i] == r.ids[..|p.ids|][|s.ids| + i];
        }
      }
    }
  }

  function Repeat(m: Id, n: nat): (r: seq<Id>)
    ensures |r| == n && forall i :: 0 <= i < n ==> r[i] == m
  {
    seq(n, _ => m)
  }

  /** Pushing onto every listed category adds `m` to category `k` once for
      each time its id is listed, and changes nothing else. */
  lemma {:induction false} PushAllCount(cats: seq<Category>, ids: seq<Id>, m: Id)
    ensures forall k :: 0 <= k < |cats| ==>
      PushAll(cats, ids, m)[k] == cats[k].(monuments := cats[k].monuments + Repeat(m, multiset(ids)[cats[k].id]))
    decreases |ids|
  {
    if ids != [] {
      var init, x := ids[..|ids| - 1], ids[|ids| - 1];
      PushAllCount(cats, init, m);
      assert ids == init + [x];
      forall k | 0 <= k < |cats|
        ensures PushAll(cats, ids, m)[k] == cats[k].(monuments := cats[k].monuments + Repeat(m, multiset(ids)[cats[k].id]))
      {
        var before: multiset<Id> := multiset(init);
        var n := before[cats[k].id];
        if cats[k].id == x {
          assert Repeat(m, n + 1) == Repeat(m, n) + [m];
        }
      }
    }
  }

  /** In a sequence without repeats, an element occurs exactly once. */
  lemma {:induction false} DistinctOnce(ids: seq<Id>, x: Id)
    requires forall i, j :: 0 <= i < j < |ids| ==> ids[i] != ids[j]
    ensures multiset(ids)[x] == if x in ids then 1 else 0
    decreases |ids|
  {
    if ids != [] {
      var init := ids[..|ids| - 1];
      assert ids == init + [ids[|ids| - 1]];
      DistinctOnce(init, x);
    }
  }

  /** When the query found one category per ticked title, exactly the
      non-province categories with a ticked title gain `m`, once each, and
      every other category is unchanged. */
  lemma AllExistPushesOnce(cats: seq<Category>, next: Id, ts: seq<string>, m: Id)
    requires KeysValid(cats, CategoryKey, next)
    ensures var q := Filter(cats, OtherTitledIn(ts));
      forall k :: 0 <= k < |cats| ==>
        PushAll(cats, Keys(q, CategoryKey), m)[k] == if cats[k].title in ts && !IsProvince(cats[k].title) then Pushed(cats[k], m) else cats[k]
  {
    var q := Filter(cats, OtherTitledIn(ts));
    var qs := Keys(q, CategoryKey);
    KeysValidFilter(cats, OtherTitledIn(ts), CategoryKey, next);
    PushAllCount(cats, qs, m);
    forall k | 0 <= k < |cats|
      ensures PushAll(cats, qs, m)[k] == if cats[k].title in ts && !IsProvince(cats[k].title) then Pushed(cats[k], m) else cats[k]
    {
      DistinctOnce(qs, cats[k].id);
      if cats[k].title in ts && !IsProvince(cats[k].title) {
        assert cats[k] in q;
        var j :| 0 <= j < |q| && q[j] == cats[k];
        assert qs[j] == cats[k].id;
        assert Repeat(m, 1) == [m];
      } else {
        assert cats[k].id !in qs by {
          forall j | 0 <= j < |qs| ensures qs[j] != cats[k].id {
            assert q[j] in q;
            var i :| 0 <= i < |cats| && cats[i] == q[j];
            assert i != k;
            assert Keys(cats, CategoryKey)[i] != Keys(cats, CategoryKey)[k];
          }
        }
        assert Repeat(m, 0) == [];
      }
    }
  }

  /** Every category whose id is listed holds `m` afterwards. */
  lemma PushAllLinks(cats: seq<Category>, next: Id, q: seq<Category>, ts: seq<string>, m: Id)
    requires forall c :: c in q ==> c in cats && c.title in ts
    ensures Extends(Tally(cats, next, []), Tally(PushAll(cats, Keys(q, CategoryKey), m), next, Keys(q, CategoryKey)), ts, m)
  {
    var qs := Keys(q, CategoryKey);
    var r := PushAll(cats, qs, m);
    PushAllCount(cats, qs, m);
    forall k | 0 <= k < |cats| ensures cats[k].monuments <= r[k].monuments {
      assert cats[k].monuments == r[k].monuments[..|cats[k].monuments|];
    }
    forall i | 0 <= i < |qs| ensures Linked(r, qs[i], ts, m) {
      assert q[i] in q;
      var k :| 0 <= k < |cats| && cats[k] == q[i];
      assert qs[i] in multiset(qs);
      assert r[k].monuments[|cats[k].monuments|] == m;
    }
  }

  /** All the titles a form field names. */
  function Titles(input: CategoryInput): (r: seq<string>)
    ensures input.One? ==> r == [input.title]
    ensures input.Several? ==> r == input.titles
  {
    match input
    case Absent => []
    case One(t) => [t]
    case Several(ts) => ts
  }

  /** `addMonumentAdditionalCategories`: nothing happens without input; a
      single title reuses the first non-province category with that title and
      creates `{ t, [m] }` under the next id only when there is none; a list
      whose titles were all found creates nothing; a list yields one id per
      title; every collected id names a category with one of the titles that
      now holds the monument; and no category loses a member, its id or its
      title. */
  lemma AddAdditionalLinks(cats: seq<Category>, next: Id, input: CategoryInput, m: Id)
    ensures var r := AddAdditionalSpec(cats, next, input, m);
      && Grows(cats, r.cats) && r.next >= next
      && (input.Absent? ==> r == Tally(cats, next, []))
      && (input.One? ==> |r.ids| == 1)
      && (input.One? && Filter(cats, OtherTitled(input.title)) != [] ==>
            var c := Filter(cats, OtherTitled(input.title))[0];
            && r.cats == PushById(cats, c.id, m) && r.next == next && r.ids == [c.id]
            && (KeysValid(cats, CategoryKey, next) ==>
                  forall k :: 0 <= k < |cats| ==> r.cats[k] == if cats[k] == c then Pushed(cats[k], m) else cats[k]))
      && (input.One? && Filter(cats, OtherTitled(input.title)) == [] ==>
            r.cats == cats + [Category(next, input.title, [m])] && r.next == next + 1 && r.ids == [next])
      && (input.Several? ==> |r.ids| == |input.titles|)
      && (input.Several? && |Filter(cats, OtherTitledIn(input.titles))| == |input.titles| ==>
            |r.cats| == |cats| && r.next == next)
      && forall id :: id in r.ids ==> Linked(r.cats, id, Titles(input), m)
  {
    var start := Tally(cats, next, []);
    var r := AddAdditionalSpec(cats, next, input, m);
    match input
    case Absent =>
    case One(t) =>
      var f := Filter(cats, OtherTitled(t));
      LookupOrCreateLinks(start, f, t, m);
      if f != [] && KeysValid(cats, CategoryKey, next) {
        assert f[0] in f;
        PushFoundOnly(cats, next, f[0], m);
      }
    case Several(ts) =>
      var q := Filter(cats, OtherTitledIn(ts));
      if |q| == |ts| {
        PushAllLinks(cats, next, q, ts, m);
      } else {
        AddTitlesLinks(start, ts, m);
      }
    forall id | id in r.ids ensures Linked(r.cats, id, Titles(input), m) {
      var i :| 0 <= i < |r.ids| && r.ids[i] == id;
    }
  }

  /** `addMonumentAdditionalCategories` with a list whose titles were not all
      found walks the titles one by one. For each title `t`: when exactly one
      category of the table has it, every occurrence reuses that category and
      no second one appears; when none has it, it stays without one unless
      listed, and a listed one gets a single new category that every
      occurrence collects; when several have it, every occurrence creates
      another one. A new category's id is not the id of any category before. */
  lemma AddAdditionalWalk(cats: seq<Category>, next: Id, ts: seq<string>, m: Id, t: string)
    requires KeysValid(cats, CategoryKey, next)
    requires |Filter(cats, OtherTitledIn(ts))| != |ts|
    ensures var r, f := AddAdditionalSpec(cats, next, Several(ts), m), WithTitle(cats, t);
      && |r.ids| == |ts|
      && (|f| == 1 ==>
            && |WithTitle(r.cats, t)| == 1 && WithTitle(r.cats, t)[0].id == f[0].id
            && forall i :: 0 <= i < |ts| && ts[i] == t ==> r.ids[i] == f[0].id)
      && (f == [] && t !in ts ==> WithTitle(r.cats, t) == [])
      && (f == [] && t in ts ==>
            && |WithTitle(r.cats, t)| == 1 && WithTitle(r.cats, t)[0].id !in Keys(cats, CategoryKey)
            && forall i :: 0 <= i < |ts| && ts[i] == t ==> r.ids[i] == WithTitle(r.cats, t)[0].id)
      && (|f| >= 2 ==>
            && |WithTitle(r.cats, t)| == |f| + multiset(ts)[t]
            && forall i :: 0 <= i < |ts| && ts[i] == t ==> r.ids[i] !in Keys(cats, CategoryKey))
  {
    var start := Tally(cats, next, []);
    assert AddAdditionalSpec(cats, next, Several(ts), m) == AddTitles(start, ts, m);
    AddTitlesCount(start, ts, m);
    var f := WithTitle(cats, t);
    assert forall k :: 0 <= k < |cats| ==> Keys(cats, CategoryKey)[k] < next;
    if |f| == 1 {
      AddTitlesReuse(start, ts, m, t);
    } else if f == [] {
      if t in ts {
        AddTitlesCreateOnce(start, ts, m, t);
      } else {
        AddTitlesAbsent(start, ts, m, t);
      }
    } else {
      AddTitlesAmbiguous(start, ts, m, t);
    }
  }

  // ----- Which categories gain the monument -----

  /** How often the walk pushes onto a category titled `t` that was stored
      before it: once per occurrence when it is the only category with that
      title, never when other categories share the title. */
  function WalkGain(cats: seq<Category>, t: string, ts: seq<string>): nat {
    if |WithTitle(cats, t)| == 1 then multiset(ts)[t] else 0
  }

  /** Every category stored before gains `m` exactly `n` times, where `n` is
      what `gain` says for its position, and is otherwise unchanged. */
  ghost predicate GainsAt(a: seq<Category>, b: seq<Category>, k: nat, n: nat, m: Id)
    requires k < |a| && k < |b|
  {
    b[k] == a[k].(monuments := a[k].monuments + Repeat(m, n))
  }

  /** A step of the walk leaves the counter's discipline intact. */
  lemma TitleStepKeysValid(p: Tally, x: string, m: Id)
    requires KeysValid(p.cats, CategoryKey, p.next)
    ensures var r := AddTitleStep(p, x, m);
      KeysValid(r.cats, CategoryKey, r.next) && |r.cats| >= |p.cats|
  {
    var f := WithTitle(p.cats, x);
    if |f| == 1 {
      assert Keys(PushById(p.cats, f[0].id, m), CategoryKey) == Keys(p.cats, CategoryKey);
    } else {
      KeysValidAppend(p.cats, Category(p.next, x, [m]), CategoryKey, p.next);
    }
  }

  lemma {:induction false} AddTitlesKeysValid(s: Tally, ts: seq<string>, m: Id)
    requires KeysValid(s.cats, CategoryKey, s.next)
    ensures var r := AddTitles(s, ts, m);
      KeysValid(r.cats, CategoryKey, r.next) && |r.cats| >= |s.cats|
    decreases |ts|
  {
    if ts != [] {
      AddTitlesKeysValid(s, ts[..|ts| - 1], m);
      TitleStepKeysValid(AddTitles(s, ts[..|ts| - 1], m), ts[|ts| - 1], m);
    }
  }

  /** With unique ids, a step of the walk for `x` pushes onto category `k`
      exactly when `k` is the only category titled `x`. */
  lemma TitleStepFrame(p: Tally, x: string, m: Id, k: nat)
    requires KeysValid(p.cats, CategoryKey, p.next) && k < |p.cats|
    ensures var r := AddTitleStep(p, x, m);
      k < |r.cats| && r.cats[k] == if x == p.cats[k].title && |WithTitle(p.cats, x)| == 1 then Pushed(p.cats[k], m) else p.cats[k]
  {
    var f := WithTitle(p.cats, x);
    if |f| == 1 {
      assert f[0] in f;
      PushFoundOnly(p.cats, p.next, f[0], m);
      if x == p.cats[k].title {
        assert p.cats[k] in f;
      }
    }
  }

  /** Along the walk, a title stored before keeps having exactly one category
      or keeps having several. */
  lemma WalkKeepsSingle(s: Tally, ts: seq<string>, m: Id, k: nat)
    requires k < |s.cats|
    ensures var t := s.cats[k].title;
      (|WithTitle(AddTitles(s, ts, m).cats, t)| == 1) == (|WithTitle(s.cats, t)| == 1)
  {
    var t := s.cats[k].title;
    assert s.cats[k] in WithTitle(s.cats, t);
    if |WithTitle(s.cats, t)| == 1 {
      AddTitlesReuse(s, ts, m, t);
    } else {
      AddTitlesAmbiguous(s, ts, m, t);
    }
  }

  /** One more step, seen from a category `k` that has gained `n` copies of `m` so far. */
  lemma GainStep(p: Tally, x: string, m: Id, k: nat, c: Category, n: nat)
    requires KeysValid(p.cats, CategoryKey, p.next) && k < |p.cats|
    requires p.cats[k] == c.(monuments := c.monuments + Repeat(m, n))
    ensures var r := AddTitleStep(p, x, m);
      && k < |r.cats|
      && r.cats[k] == c.(monuments := c.monuments + Repeat(m, n + if x == c.title && |WithTitle(p.cats, x)| == 1 then 1 else 0))
  {
    TitleStepFrame(p, x, m, k);
    assert Repeat(m, n + 1) == Repeat(m, n) + [m];
  }

  /** The count of a category stored before grows by one exactly when the
      next title is its own and still has one category. */
  lemma WalkGainStep(sc: seq<Category>, p: Tally, init: seq<string>, x: string, m: Id, k: nat)
    requires KeysValid(p.cats, CategoryKey, p.next) && k < |sc| && k < |p.cats|
    requires (|WithTitle(p.cats, sc[k].title)| == 1) == (|WithTitle(sc, sc[k].title)| == 1)
    requires GainsAt(sc, p.cats, k, WalkGain(sc, sc[k].title, init), m)
    ensures k < |AddTitleStep(p, x, m).cats|
    ensures GainsAt(sc, AddTitleStep(p, x, m).cats, k, WalkGain(sc, sc[k].title, init + [x]), m)
  {
    var c := sc[k];
    GainStep(p, x, m, k, c, WalkGain(sc, c.title, init));
    assert multiset(init + [x])[c.title] == multiset(init)[c.title] + (if x == c.title then 1 else 0);
  }

  /** The walk pushes onto each category stored before it `WalkGain` times
      and changes nothing else about it. */
  lemma {:induction false} AddTitlesGains(s: Tally, ts: seq<string>, m: Id)
    requires KeysValid(s.cats, CategoryKey, s.next)
    ensures var r := AddTitles(s, ts, m);
      && |r.cats| >= |s.cats|
      && forall k :: 0 <= k < |s.cats| ==> GainsAt(s.cats, r.cats, k, WalkGain(s.cats, s.cats[k].title, ts), m)
    decreases |ts|
  {
    AddTitlesKeysValid(s, ts, m);
    if ts == [] {
      assert Repeat(m, 0) == [];
      forall k | 0 <= k < |s.cats| ensures GainsAt(s.cats, s.cats, k, WalkGain(s.cats, s.cats[k].title, ts), m) {
        assert s.cats[k].monuments + [] == s.cats[k].monuments;
      }
    } else {
      var init, x := ts[..|ts| - 1], ts[|ts| - 1];
      assert ts == init + [x];
      AddTitlesGains(s, init, m);
      AddTitlesGainsStep(s, init, x, m);
    }
  }

  /** The induction step of `AddTitlesGains`. */
  lemma AddTitlesGainsStep(s: Tally, init: seq<string>, x: string, m: Id)
    requires KeysValid(s.cats, CategoryKey, s.next)
    requires var p := AddTitles(s, init, m);
      && |p.cats| >= |s.cats|
      && forall k :: 0 <= k < |s.cats| ==> GainsAt(s.cats, p.cats, k, WalkGain(s.cats, s.cats[k].title, init), m)
    ensures var r := AddTitles(s, init + [x], m);
      && |r.cats| >= |s.cats|
      && forall k :: 0 <= k < |s.cats| ==> GainsAt(s.cats, r.cats, k, WalkGain(s.cats, s.cats[k].title, init + [x]), m)
  {
    AddTitlesKeysValid(s, init, m);
    var p := AddTitles(s, init, m);
    assert (init + [x])[..|init|] == init;
    assert AddTitles(s, init + [x], m) == AddTitleStep(p, x, m);
    forall k | 0 <= k < |s.cats|
      ensures k < |AddTitleStep(p, x, m).cats|
      ensures GainsAt(s.cats, AddTitleStep(p, x, m).cats, k, WalkGain(s.cats, s.cats[k].title, init + [x]), m)
    {
      WalkKeepsSingle(s, init, m, k);
      WalkGainStep(s.cats, p, init, x, m, k);
    }
  }

  /** `addMonumentAdditionalCategories` with a list whose titles were not all
      found: a category stored before gains `m` once per occurrence of its
      title when it is the only one with that title, and otherwise, and in
      particular when its title is not listed, stays as it was. */
  lemma AddAdditionalWalkGains(cats: seq<Category>, next: Id, ts: seq<string>, m: Id)
    requires KeysValid(cats, CategoryKey, next)
    requires |Filter(cats, OtherTitledIn(ts))| != |ts|
    ensures var r := AddAdditionalSpec(cats, next, Several(ts), m);
      && |r.cats| >= |cats|
      && (forall k :: 0 <= k < |cats| ==>
            r.cats[k] == cats[k].(monuments := cats[k].monuments + Repeat(m, WalkGain(cats, cats[k].title, ts))))
      && (forall k :: 0 <= k < |cats| && cats[k].title !in ts ==> r.cats[k] == cats[k])
  {
    var start := Tally(cats, next, []);
    assert AddAdditionalSpec(cats, next, Several(ts), m) == AddTitles(start, ts, m);
    AddTitlesGains(start, ts, m);
    var r := AddTitles(start, ts, m);
    forall k | 0 <= k < |cats| && cats[k].title !in ts ensures r.cats[k] == cats[k] {
      assert GainsAt(cats, r.cats, k, WalkGain(cats, cats[k].title, ts), m);
      assert multiset(ts)[cats[k].title] == 0;
      assert Repeat(m, 0) == [];
      assert cats[k].monuments + [] == cats[k].monuments;
    }
  }

  lemma PushFirstTitledGrows(cats: seq<Category>, t: string, m: Id)
    requires WithTitle(cats, t) != []
    ensures Grows(cats, PushFirstTitled(cats, t, m))
    ensures Linked(PushFirstTitled(cats, t, m), WithTitle(cats, t)[0].id, [t], m)
  {
    FilterHead(cats, TitleIs(t));
    var k := FirstIndex(cats, TitleIs(t)).value;
    var r := PushFirstTitled(cats, t, m);
    assert FirstTitledAt(cats, k, t);
    assert r[k].monuments[|cats[k].monuments|] == m;
  }

  lemma RetainStepLinks(s: Tally, o: Category, ts: seq<string>, m: Id)
    ensures Extends(s, RetainStep(s, o, ts, m), ts, m)
    ensures RetainStep(s, o, ts, m).next == s.next
    ensures o.title in ts && WithTitle(s.cats, o.title) != [] ==>
      |RetainStep(s, o, ts, m).ids| == |s.ids| + 1 && Linked(RetainStep(s, o, ts, m).cats, RetainStep(s, o, ts, m).ids[|s.ids|], [o.title], m)
  {
    var r := RetainStep(s, o, ts, m);
    var found := WithTitle(s.cats, o.title);
    if |found| > 0 && o.title in ts {
      PushFirstTitledGrows(s.cats, o.title, m);
      var k :| 0 <= k < |r.cats| && r.cats[k].id == found[0].id && r.cats[k].title in [o.title] && m in r.cats[k].monuments;
      assert Linked(r.cats, r.ids[|s.ids|], ts, m);
      assert r.ids[..|s.ids|] == s.ids;
    } else {
      assert s.ids[..|s.ids|] == s.ids;
    }
  }

  lemma {:induction false} RetainExtends(s: Tally, os: seq<Category>, ts: seq<string>, m: Id)
    ensures Extends(s, Retain(s, os, ts, m), ts, m)
    ensures Retain(s, os, ts, m).next == s.next
    decreases |os|
  {
    if os == [] {
      assert s.ids[..|s.ids|] == s.ids;
    } else {
      var init, o := os[..|os| - 1], os[|os| - 1];
      RetainExtends(s, init, ts, m);
      RetainStepLinks(Retain(s, init, ts, m), o, ts, m);
      ExtendsTrans(s, Retain(s, init, ts, m), Retain(s, os, ts, m), ts, m);
    }
  }

  /** For every ticked category of `os`, an id naming a category with its title that holds `m` is collected. */
  ghost predicate Covers(r: Tally, os: seq<Category>, ts: seq<string>, m: Id) {
    forall o :: o in os && o.title in ts ==> exists id :: id in r.ids && Linked(r.cats, id, [o.title], m)
  }

  lemma CoversGrows(p: Tally, r: Tally, os: seq<Category>, ts: seq<string>, us: seq<string>, m: Id)
    requires Covers(p, os, ts, m) && Extends(p, r, us, m)
    ensures Covers(r, os, ts, m)
  {
    forall o | o in os && o.title in ts ensures exists id :: id in r.ids && Linked(r.cats, id, [o.title], m) {
      var id :| id in p.ids && Linked(p.cats, id, [o.title], m);
      LinkedGrows(p.cats, r.cats, id, [o.title], m);
      var j :| 0 <= j < |p.ids| && p.ids[j] == id;
      assert r.ids[j] == r.ids[..|p.ids|][j];
    }
  }

  lemma RetainStepCovers(s: Tally, p: Tally, o: Category, ts: seq<string>, m: Id)
    requires Grows(s.cats, p.cats) && o in s.cats && o.title in ts
    ensures exists id :: id in RetainStep(p, o, ts, m).ids && Linked(RetainStep(p, o, ts, m).cats, id, [o.title], m)
  {
    var k :| 0 <= k < |s.cats| && s.cats[k] == o;
    assert p.cats[k].title == o.title;
    assert p.cats[k] in p.cats;
    assert p.cats[k] in WithTitle(p.cats, o.title);
    RetainStepLinks(p, o, ts, m);
    var r := RetainStep(p, o, ts, m);
    assert r.ids[|p.ids|] in r.ids;
  }

  /** The first loop of the edit reaches every ticked non-province category of the snapshot. */
  lemma {:induction false} RetainCovers(s: Tally, os: seq<Category>, ts: seq<string>, m: Id)
    requires forall o :: o in os ==> o in s.cats
    ensures Covers(Retain(s, os, ts, m), os, ts, m)
    decreases |os|
  {
    if os != [] {
      var init, o := os[..|os| - 1], os[|os| - 1];
      assert forall x :: x in init ==> x in os;
      var p := Retain(s, init, ts, m);
      var r := Retain(s, os, ts, m);
      assert r == RetainStep(p, o, ts, m);
      RetainCovers(s, init, ts, m);
      RetainExtends(s, init, ts, m);
      RetainStepLinks(p, o, ts, m);
      CoversGrows(p, r, init, ts, ts, m);
      if o.title in ts {
        RetainStepCovers(s, p, o, ts, m);
      }
      forall x | x in os && x.title in ts ensures exists id :: id in r.ids && Linked(r.cats, id, [x.title], m) {
        if x != o {
          assert os == init + [o];
          assert x in init;
        }
      }
    }
  }

  /** One title of the second edit loop: a title with exactly one category
      changes nothing; any other title gets a new `{ t, [m] }` under the next
      id, which is collected. */
  lemma CreateStepLinks(s: Tally, t: string, m: Id)
    ensures Extends(s, CreateStep(s, t, m), [t], m)
    ensures |WithTitle(s.cats, t)| == 1 ==> CreateStep(s, t, m) == s
    ensures |WithTitle(s.cats, t)| != 1 ==> var r := CreateStep(s, t, m);
      r.cats == s.cats + [Category(s.next, t, [m])] && r.next == s.next + 1 && r.ids == s.ids + [s.next]
  {
    if |WithTitle(s.cats, t)| != 1 {
      LookupOrCreateLinks(s, [], t, m);
    } else {
      assert s.ids[..|s.ids|] == s.ids;
    }
  }

  /** The second loop of the edit: every created category has a ticked title and holds `m`. */
  lemma {:induction false} CreateMissingLinks(s: Tally, ts: seq<string>, m: Id)
    ensures Extends(s, CreateMissing(s, ts, m), ts, m)
    decreases |ts|
  {
    if ts == [] {
      assert s.ids[..|s.ids|] == s.ids;
    } else {
      var init, t := ts[..|ts| - 1], ts[|ts| - 1];
      var p := CreateMissing(s, init, m);
      CreateMissingLinks(s, init, m);
      CreateStepLinks(p, t, m);
      ExtendsWider(s, p, init, ts, m);
      ExtendsWider(p, CreateStep(p, t, m), [t], ts, m);
      ExtendsTrans(s, p, CreateStep(p, t, m), ts, m);
    }
  }

  /** A step of the second edit loop for another title leaves the categories titled `t` alone. */
  lemma CreateStepOther(p: Tally, u: string, m: Id, t: string)
    requires u != t
    ensures WithTitle(CreateStep(p, u, m).cats, t) == WithTitle(p.cats, t)
  {
    if |WithTitle(p.cats, u)| != 1 {
      FilterAppend(p.cats, Category(p.next, u, [m]), TitleIs(t));
    }
  }

  /** The second edit loop keeps the ids collected before, never lowers the
      counter, and collects only new ids, from `s.next` on. */
  lemma {:induction false} CreateMissingKeeps(s: Tally, ts: seq<string>, m: Id)
    ensures var r := CreateMissing(s, ts, m);
      && r.next >= s.next && (forall id :: id in s.ids ==> id in r.ids)
      && |s.ids| <= |r.ids| && r.ids[..|s.ids|] == s.ids
      && forall i :: |s.ids| <= i < |r.ids| ==> s.next <= r.ids[i] < r.next
    decreases |ts|
  {
    if ts != [] {
      var p := CreateMissing(s, ts[..|ts| - 1], m);
      CreateMissingKeeps(s, ts[..|ts| - 1], m);
      var r := CreateStep(p, ts[|ts| - 1], m);
      if r != p {
        assert r.ids == p.ids + [p.next];
        assert r.ids[..|s.ids|] == p.ids[..|s.ids|];
      }
    }
  }

  /** A title the loop does not list, or one with exactly one category, keeps its categories. */
  lemma {:induction false} CreateMissingUnchanged(s: Tally, ts: seq<string>, m: Id, t: string)
    requires t !in ts || |WithTitle(s.cats, t)| == 1
    ensures WithTitle(CreateMissing(s, ts, m).cats, t) == WithTitle(s.cats, t)
    decreases |ts|
  {
    if ts != [] {
      var init, x := ts[..|ts| - 1], ts[|ts| - 1];
      assert ts == init + [x];
      assert t !in ts ==> t !in init;
      CreateMissingUnchanged(s, init, m, t);
      if x != t {
        CreateStepOther(CreateMissing(s, init, m), x, m, t);
      }
    }
  }

  /** A listed title without any category before the loop ends up with exactly
      one, `{ t, [m] }` under an id from `s.next` on, and that id is collected. */
  ghost predicate MadeOnce(s: Tally, r: Tally, t: string, m: Id) {
    && |WithTitle(r.cats, t)| == 1 && WithTitle(r.cats, t)[0].title == t && WithTitle(r.cats, t)[0].monuments == [m]
    && WithTitle(r.cats, t)[0].id >= s.next && WithTitle(r.cats, t)[0].id in r.ids
  }

  lemma {:induction false} CreateMissingOnce(s: Tally, ts: seq<string>, m: Id, t: string)
    requires WithTitle(s.cats, t) == [] && t in ts
    ensures MadeOnce(s, CreateMissing(s, ts, m), t, m)
    decreases |ts|
  {
    var init, x := ts[..|ts| - 1], ts[|ts| - 1];
    assert ts == init + [x];
    if t !in init {
      MadeAtLast(s, init, m, t);
    } else {
      CreateMissingOnce(s, init, m, t);
      MadeStaysOnce(s, init, x, m, t);
    }
  }

  lemma MadeAtLast(s: Tally, init: seq<string>, m: Id, t: string)
    requires WithTitle(s.cats, t) == [] && t !in init
    ensures MadeOnce(s, CreateMissing(s, init + [t], m), t, m)
  {
    var ts := init + [t];
    assert ts[..|ts| - 1] == init;
    var p := CreateMissing(s, init, m);
    CreateMissingUnchanged(s, init, m, t);
    CreateMissingKeeps(s, init, m);
    FilterAppend(p.cats, Category(p.next, t, [m]), TitleIs(t));
    assert CreateMissing(s, ts, m) == Create(p, t, m);
  }

  lemma MadeStaysOnce(s: Tally, init: seq<string>, x: string, m: Id, t: string)
    requires MadeOnce(s, CreateMissing(s, init, m), t, m)
    ensures MadeOnce(s, CreateMissing(s, init + [x], m), t, m)
  {
    var ts := init + [x];
    assert ts[..|ts| - 1] == init;
    var p := CreateMissing(s, init, m);
    if x != t {
      CreateStepOther(p, x, m, t);
    }
    CreateMissingKeeps(p, [x], m);
    assert CreateMissing(p, [x], m) == CreateStep(p, x, m) by {
      assert [x][..0] == [];
    }
  }

  /** A title with two or more categories gets one more at each occurrence. */
  lemma {:induction false} CreateMissingAmbiguous(s: Tally, ts: seq<string>, m: Id, t: string)
    requires |WithTitle(s.cats, t)| >= 2
    ensures |WithTitle(CreateMissing(s, ts, m).cats, t)| == |WithTitle(s.cats, t)| + multiset(ts)[t]
    decreases |ts|
  {
    if ts != [] {
      var init, x := ts[..|ts| - 1], ts[|ts| - 1];
      var p := CreateMissing(s, init, m);
      assert ts == init + [x];
      CreateMissingAmbiguous(s, init, m, t);
      if x == t {
        FilterAppend(p.cats, Category(p.next, t, [m]), TitleIs(t));
      } else {
        CreateStepOther(p, x, m, t);
      }
    }
  }

  /** The first edit loop keeps every category's id and title, and the table's length. */
  lemma {:induction false} RetainShape(s: Tally, os: seq<Category>, ts: seq<string>, m: Id)
    ensures |Retain(s, os, ts, m).cats| == |s.cats|
    decreases |os|
  {
    if os != [] {
      RetainShape(s, os[..|os| - 1], ts, m);
    }
  }

  /** How often the first edit loop pushes `m` onto category `k`: once for
      each category of the snapshot `os` with its title, when that title is
      ticked and `k` is the first category with it; never otherwise. */
  function RetainGain(cats: seq<Category>, k: nat, os: seq<Category>, ts: seq<string>): nat
    requires k < |cats|
  {
    var t := cats[k].title;
    if t in ts && FirstTitledAt(cats, k, t) then |WithTitle(os, t)| else 0
  }

  /** One snapshot category of the first edit loop, seen from category `k`,
      which has gained `n` copies of `m` so far. */
  lemma RetainStepGain(sc: seq<Category>, p: Tally, o: Category, ts: seq<string>, m: Id, k: nat, n: nat)
    requires Grows(sc, p.cats) && |p.cats| == |sc| && k < |sc|
    requires p.cats[k] == sc[k].(monuments := sc[k].monuments + Repeat(m, n))
    ensures var r := RetainStep(p, o, ts, m);
      && |r.cats| == |sc|
      && r.cats[k] == sc[k].(monuments := sc[k].monuments + Repeat(m, n + if o.title == sc[k].title && o.title in ts && FirstTitledAt(sc, k, o.title) then 1 else 0))
  {
    var t := o.title;
    assert FirstTitledAt(p.cats, k, t) == FirstTitledAt(sc, k, t);
    if FirstTitledAt(sc, k, t) {
      assert p.cats[k] in WithTitle(p.cats, t);
    }
    assert Repeat(m, n + 1) == Repeat(m, n) + [m];
  }

  /** The induction step of `RetainGains`. */
  lemma RetainGainsStep(s: Tally, init: seq<Category>, o: Category, ts: seq<string>, m: Id)
    requires var p := Retain(s, init, ts, m);
      && |p.cats| == |s.cats|
      && forall k :: 0 <= k < |s.cats| ==> GainsAt(s.cats, p.cats, k, RetainGain(s.cats, k, init, ts), m)
    ensures var r := Retain(s, init + [o], ts, m);
      && |r.cats| == |s.cats|
      && forall k :: 0 <= k < |s.cats| ==> GainsAt(s.cats, r.cats, k, RetainGain(s.cats, k, init + [o], ts), m)
  {
    var p := Retain(s, init, ts, m);
    assert (init + [o])[..|init|] == init;
    assert Retain(s, init + [o], ts, m) == RetainStep(p, o, ts, m);
    RetainExtends(s, init, ts, m);
    forall k | 0 <= k < |s.cats|
      ensures k < |RetainStep(p, o, ts, m).cats|
      ensures GainsAt(s.cats, RetainStep(p, o, ts, m).cats, k, RetainGain(s.cats, k, init + [o], ts), m)
    {
      RetainStepGain(s.cats, p, o, ts, m, k, RetainGain(s.cats, k, init, ts));
      FilterAppend(init, o, TitleIs(s.cats[k].title));
    }
  }

  /** The first edit loop pushes onto each category `RetainGain` times and
      changes nothing else about it. */
  lemma {:induction false} RetainGains(s: Tally, os: seq<Category>, ts: seq<string>, m: Id)
    ensures var r := Retain(s, os, ts, m);
      && |r.cats| == |s.cats|
      && forall k :: 0 <= k < |s.cats| ==> GainsAt(s.cats, r.cats, k, RetainGain(s.cats, k, os, ts), m)
    decreases |os|
  {
    if os == [] {
      assert Repeat(m, 0) == [];
      forall k | 0 <= k < |s.cats| ensures GainsAt(s.cats, s.cats, k, RetainGain(s.cats, k, os, ts), m) {
        assert s.cats[k].monuments + [] == s.cats[k].monuments;
      }
    } else {
      var init, o := os[..|os| - 1], os[|os| - 1];
      assert os == init + [o];
      RetainGains(s, init, ts, m);
      RetainGainsStep(s, init, o, ts, m);
    }
  }

  /** The second edit loop only appends: every category before it stays as it was. */
  lemma {:induction false} CreateMissingPrefix(s: Tally, ts: seq<string>, m: Id)
    ensures var r := CreateMissing(s, ts, m);
      |r.cats| >= |s.cats| && r.cats[..|s.cats|] == s.cats
    decreases |ts|
  {
    if ts != [] {
      var p := CreateMissing(s, ts[..|ts| - 1], m);
      CreateMissingPrefix(s, ts[..|ts| - 1], m);
      var r := CreateStep(p, ts[|ts| - 1], m);
      if r != p {
        assert r.cats[..|s.cats|] == p.cats[..|s.cats|];
      }
    }
  }

  /** No non-province category has a province title. */
  lemma ProvinceNotOther(cats: seq<Category>, t: string)
    requires IsProvince(t)
    ensures WithTitle(OtherPart(cats), t) == []
  {
    var os := OtherPart(cats);
    forall i | 0 <= i < |os| ensures !TitleIs(t)(os[i]) {
      assert os[i] in os;
    }
    FilterNone(os, TitleIs(t));
  }

  /** `editMonumentAdditionalCategories` with a list, seen from each category
      stored before: the first category with a ticked non-province title
      gains `m` once for every non-province category with that title, so at
      least once; every other category, one with an unticked or a province
      title or one that is not the first with its title, is unchanged. */
  lemma EditAdditionalGains(cats: seq<Category>, next: Id, ts: seq<string>, m: Id)
    ensures var r := EditAdditionalSpec(cats, next, Several(ts), m);
      && |r.cats| >= |cats|
      && (forall k :: 0 <= k < |cats| && cats[k].title in ts && !IsProvince(cats[k].title) && FirstTitledAt(cats, k, cats[k].title) ==>
            && |WithTitle(OtherPart(cats), cats[k].title)| >= 1
            && r.cats[k] == cats[k].(monuments := cats[k].monuments + Repeat(m, |WithTitle(OtherPart(cats), cats[k].title)|)))
      && forall k :: 0 <= k < |cats| && (cats[k].title !in ts || IsProvince(cats[k].title) || !FirstTitledAt(cats, k, cats[k].title)) ==>
            r.cats[k] == cats[k]
  {
    var start := Tally(cats, next, []);
    var os := OtherPart(cats);
    var p := Retain(start, os, ts, m);
    var r := CreateMissing(p, ts, m);
    assert EditAdditionalSpec(cats, next, Several(ts), m) == r;
    RetainGains(start, os, ts, m);
    CreateMissingPrefix(p, ts, m);
    forall k | 0 <= k < |cats|
      ensures r.cats[k] == cats[k].(monuments := cats[k].monuments + Repeat(m, RetainGain(cats, k, os, ts)))
    {
      assert r.cats[k] == r.cats[..|p.cats|][k];
      assert GainsAt(cats, p.cats, k, RetainGain(cats, k, os, ts), m);
    }
    forall k | 0 <= k < |cats|
      ensures var t := cats[k].title;
        && (t in ts && !IsProvince(t) && FirstTitledAt(cats, k, t) ==> |WithTitle(os, t)| >= 1)
        && (IsProvince(t) ==> WithTitle(os, t) == [])
    {
      var t := cats[k].title;
      if IsProvince(t) {
        ProvinceNotOther(cats, t);
      } else {
        assert cats[k] in os;
        assert cats[k] in WithTitle(os, t);
      }
    }
    assert Repeat(m, 0) == [];
    forall k | 0 <= k < |cats| ensures cats[k].monuments + Repeat(m, 0) == cats[k].monuments {
    }
  }

  /** `editMonumentAdditionalCategories` with a list, for each title `t`: a
      title with exactly one category keeps just that one; a title with none
      stays without one unless listed, and a listed one gets exactly one new
      category `{ t, [m] }` whose id is collected; a title with several gets
      one more per occurrence. A new category's id is not the id of any
      category before. */
  lemma EditAdditionalCreates(cats: seq<Category>, next: Id, ts: seq<string>, m: Id, t: string)
    requires KeysValid(cats, CategoryKey, next)
    ensures var r, f := EditAdditionalSpec(cats, next, Several(ts), m), WithTitle(cats, t);
      && (|f| == 1 ==> Keys(WithTitle(r.cats, t), CategoryKey) == Keys(f, CategoryKey))
      && (f == [] && t !in ts ==> WithTitle(r.cats, t) == [])
      && (f == [] && t in ts ==>
            && |WithTitle(r.cats, t)| == 1 && WithTitle(r.cats, t)[0].title == t && WithTitle(r.cats, t)[0].monuments == [m]
            && WithTitle(r.cats, t)[0].id in r.ids && WithTitle(r.cats, t)[0].id !in Keys(cats, CategoryKey))
      && (|f| >= 2 ==> |WithTitle(r.cats, t)| == |f| + multiset(ts)[t])
  {
    var start := Tally(cats, next, []);
    var p := Retain(start, OtherPart(cats), ts, m);
    assert EditAdditionalSpec(cats, next, Several(ts), m) == CreateMissing(p, ts, m);
    RetainExtends(start, OtherPart(cats), ts, m);
    RetainShape(start, OtherPart(cats), ts, m);
    GrowsSameShape(cats, p.cats);
    WithTitleShape(cats, p.cats, t);
    var f := WithTitle(cats, t);
    assert |WithTitle(p.cats, t)| == |f| by {
      assert |Keys(WithTitle(p.cats, t), CategoryKey)| == |Keys(f, CategoryKey)|;
    }
    if |f| == 1 || t !in ts {
      CreateMissingUnchanged(p, ts, m, t);
    } else if f == [] {
      CreateMissingOnce(p, ts, m, t);
      assert forall k :: 0 <= k < |cats| ==> Keys(cats, CategoryKey)[k] < next;
    } else {
      CreateMissingAmbiguous(p, ts, m, t);
    }
  }

  /** `editMonumentAdditionalCategories`: nothing happens without input; a
      single title reuses the first category with that title, province or
      not, and creates `{ t, [m] }` under the next id only when there is none;
      with a list, for every ticked non-province
      category an id is collected that names a category with its title now
      holding the monument; every collected id names a category with one of
      the titles that holds the monument; and no category loses a member, its
      id or its title. */
  lemma EditAdditionalLinks(cats: seq<Category>, next: Id, input: CategoryInput, m: Id)
    ensures var r := EditAdditionalSpec(cats, next, input, m);
      && Grows(cats, r.cats) && r.next >= next
      && (input.Absent? ==> r == Tally(cats, next, []))
      && (input.One? ==> |r.ids| == 1)
      && (input.One? && WithTitle(cats, input.title) != [] ==>
            var c := WithTitle(cats, input.title)[0];
            && r.cats == PushById(cats, c.id, m) && r.next == next && r.ids == [c.id]
            && (KeysValid(cats, CategoryKey, next) ==>
                  forall k :: 0 <= k < |cats| ==> r.cats[k] == if cats[k] == c then Pushed(cats[k], m) else cats[k]))
      && (input.One? && WithTitle(cats, input.title) == [] ==>
            r.cats == cats + [Category(next, input.title, [m])] && r.next == next + 1 && r.ids == [next])
      && (input.Several? ==> forall c :: c in cats && !IsProvince(c.title) && c.title in input.titles ==>
            exists id :: id in r.ids && Linked(r.cats, id, [c.title], m))
      && forall id :: id in r.ids ==> Linked(r.cats, id, Titles(input), m)
  {
    var start := Tally(cats, next, []);
    var r := EditAdditionalSpec(cats, next, input, m);
    match input
    case Absent =>
    case One(t) =>
      var f := WithTitle(cats, t);
      LookupOrCreateLinks(start, f, t, m);
      if f != [] && KeysValid(cats, CategoryKey, next) {
        assert f[0] in f;
        PushFoundOnly(cats, next, f[0], m);
      }
    case Several(ts) =>
      var os := OtherPart(cats);
      var p := Retain(start, os, ts, m);
      RetainExtends(start, os, ts, m);
      RetainCovers(start, os, ts, m);
      CreateMissingLinks(p, ts, m);
      ExtendsTrans(start, p, r, ts, m);
      CoversGrows(p, r, os, ts, ts, m);
      forall c | c in cats && !IsProvince(c.title) && c.title in ts
        ensures exists id :: id in r.ids && Linked(r.cats, id, [c.title], m)
      {
        assert c in os;
      }
    forall id | id in r.ids ensures Linked(r.cats, id, Titles(input), m) {
      var i :| 0 <= i < |r.ids| && r.ids[i] == id;
    }
  }

  /** `addMonumentProvinceCategory`: without a category titled with the
      province, exactly one new category `{ province, [m] }` is added under a
      fresh id, which is returned; otherwise no category is created, the first
      one with the title gains `m`, every other category is unchanged, and
      nothing usable is returned. */
  lemma ProvinceFiling(cats: seq<Category>, next: Id, province: string, m: Id)
    ensures var r := ProvinceSpec(cats, next, province, m);
      && Grows(cats, r.cats)
      && (r.id.Some? <==> WithTitle(cats, province) == [])
      && (r.id.Some? ==> r.id.value == next && r.next == next + 1 && r.cats == cats + [Category(next, province, [m])]
                         && Linked(r.cats, next, [province], m))
      && (r.id.None? ==> r.next == next && |r.cats| == |cats| && forall i :: 0 <= i < |cats| ==>
            r.cats[i] == if FirstTitledAt(cats, i, province) then Pushed(cats[i], m) else cats[i])
      && (r.id.None? ==> exists i :: 0 <= i < |cats| && FirstTitledAt(cats, i, province) && m in r.cats[i].monuments)
  {
    var r := ProvinceSpec(cats, next, province, m);
    if WithTitle(cats, province) == [] {
      assert r.cats[|cats|].monuments == [m];
    } else {
      PushFirstTitledGrows(cats, province, m);
      FilterHead(cats, TitleIs(province));
      var k := FirstIndex(cats, TitleIs(province)).value;
      assert FirstTitledAt(cats, k, province);
      assert r.cats[k].monuments[|cats[k].monuments|] == m;
    }
  }

  lemma FilterPair(a: Category, b: Category, p: Category -> bool)
    ensures Filter([a, b], p) == (if p(a) then [a] else []) + (if p(b) then [b] else [])
  {
    assert [a, b][..1] == [a];
    assert [a][..0] == [];
  }

  /** A worked case with the two ids the API test expects from an edit: a
      monument already filed under a non-province category is edited with that
      title and the new title "Test"; the existing category is reused and
      "Test" is created. The test's own starting database is larger. */
  lemma EditWithNewTitleCollectsTwo()
    ensures var cats := [Category(0, "Munster", [7]), Category(1, "Castle", [7])];
      EditAdditionalSpec(cats, 2, Several(["Castle", "Test"]), 7)
      == Tally([Category(0, "Munster", [7]), Category(1, "Castle", [7, 7]), Category(2, "Test", [7])], 3, [1, 2])
  {
    var prov, o := Category(0, "Munster", [7]), Category(1, "Castle", [7]);
    var p := Tally([prov, Pushed(o, 7)], 2, [1]);
    ScenarioRetain(prov, o);
    ScenarioCreate(prov, Pushed(o, 7), p);
  }

  lemma ScenarioRetain(prov: Category, o: Category)
    requires prov == Category(0, "Munster", [7]) && o == Category(1, "Castle", [7])
    ensures Retain(Tally([prov, o], 2, []), OtherPart([prov, o]), ["Castle", "Test"], 7) == Tally([prov, Pushed(o, 7)], 2, [1])
  {
    var cats := [prov, o];
    var ts := ["Castle", "Test"];
    var start := Tally(cats, 2, []);
    ScenarioOthers(prov, o);
    assert Retain(start, [o], ts, 7) == RetainStep(start, o, ts, 7) by {
      assert [o][..0] == [];
    }
    FilterPair(prov, o, TitleIs("Castle"));
    ScenarioPush(prov, o);
  }

  lemma ScenarioOthers(prov: Category, o: Category)
    requires prov == Category(0, "Munster", [7]) && o == Category(1, "Castle", [7])
    ensures OtherPart([prov, o]) == [o]
  {
    assert IsProvince("Munster") && !IsProvince("Castle");
    FilterPair(prov, o, NotInProvince);
  }

  lemma ScenarioPush(prov: Category, o: Category)
    requires prov == Category(0, "Munster", [7]) && o == Category(1, "Castle", [7])
    ensures PushFirstTitled([prov, o], "Castle", 7) == [prov, Pushed(o, 7)]
  {
    var cats := [prov, o];
    assert FirstTitledAt(cats, 1, "Castle");
    assert !FirstTitledAt(cats, 0, "Castle");
  }

  lemma ScenarioCreate(prov: Category, o': Category, p: Tally)
    requires prov == Category(0, "Munster", [7]) && o' == Category(1, "Castle", [7, 7])
    requires p == Tally([prov, o'], 2, [1])
    ensures CreateMissing(p, ["Castle", "Test"], 7) == Tally([prov, o', Category(2, "Test", [7])], 3, [1, 2])
  {
    var ts := ["Castle", "Test"];
    assert CreateStep(p, "Castle", 7) == p by {
      FilterPair(prov, o', TitleIs("Castle"));
    }
    assert CreateStep(p, "Test", 7) == Create(p, "Test", 7) by {
      FilterPair(prov, o', TitleIs("Test"));
    }
    assert CreateMissing(p, ts, 7) == CreateStep(CreateStep(p, "Castle", 7), "Test", 7) by {
      assert ts[..1] == ["Castle"];
      assert ts[..1][..0] == [];
    }
  }

  // ----- Reconciliation methods -----

  /** Lines 81-85: push onto every queried category and collect its id. */
  method PushToEach(db: Database, query: seq<Category>, monumentId: Id) returns (ids: seq<Id>)
    requires db.Valid()
    modifies db`categories
    ensures db.Valid()
    ensures ids == Keys(query, CategoryKey)
    ensures db.categories == PushAll(old(db.categories), ids, monumentId)
  {
    ghost var keys := Keys(query, CategoryKey);
    ids := [];
    var i := 0;
    while i < |query|
      invariant 0 <= i <= |query|
      invariant db.Valid()
      invariant db.categories == PushAll(old(db.categories), keys[..i], monumentId)
      invariant ids == keys[..i]
    {
      assert keys[..i + 1][..i] == keys[..i];
      db.PushToCategory(query[i].id, monumentId);
      ids := ids + [query[i].id];
      i := i + 1;
    }
    assert keys[..i] == keys;
  }

  /** One title of the walk of lines 87-103: a title with exactly one category
      reuses it, any other gets a new one. */
  method AddTitle(db: Database, t: string, monumentId: Id, ids0: seq<Id>) returns (ids: seq<Id>)
    requires db.Valid()
    modifies db`categories, db`nextId
    ensures db.Valid()
    ensures Tally(db.categories, db.nextId, ids) == AddTitleStep(Tally(old(db.categories), old(db.nextId), ids0), t, monumentId)
  {
    var existingCategoryCheck := WithTitle(db.categories, t);
    if |existingCategoryCheck| == 1 {
      db.PushToCategory(existingCategoryCheck[0].id, monumentId);
      ids := ids0 + [existingCategoryCheck[0].id];
    } else {
      var id := db.InsertCategory(t, [monumentId]);
      ids := ids0 + [id];
    }
  }

  /** Lines 87-103: the per-title walk. */
  method AddEachTitle(db: Database, ts: seq<string>, monumentId: Id) returns (ids: seq<Id>)
    requires db.Valid()
    modifies db`categories, db`nextId
    ensures db.Valid()
    ensures Tally(db.categories, db.nextId, ids) == AddTitles(Tally(old(db.categories), old(db.nextId), []), ts, monumentId)
  {
    ghost var start := Tally(db.categories, db.nextId, []);
    ids := [];
    var i := 0;
    while i < |ts|
      invariant 0 <= i <= |ts|
      invariant db.Valid()
      invariant Tally(db.categories, db.nextId, ids) == AddTitles(start, ts[..i], monumentId)
    {
      assert ts[..i + 1][..i] == ts[..i];
      ids := AddTitle(db, ts[i], monumentId, ids);
      i := i + 1;
    }
    assert ts[..i] == ts;
  }

  /** Append to the first found category, or create one when nothing was found. */
  method PushOrCreate(db: Database, found: seq<Category>, t: string, monumentId: Id) returns (ids: seq<Id>)
    requires db.Valid()
    modifies db`categories, db`nextId
    ensures db.Valid()
    ensures Tally(db.categories, db.nextId, ids)
         == LookupOrCreate(Tally(old(db.categories), old(db.nextId), []), found, t, monumentId)
  {
    if |found| == 0 {
      var id := db.InsertCategory(t, [monumentId]);
      ids := [id];
    } else {
      ids := [found[0].id];
      db.PushToCategory(found[0].id, monumentId);
    }
  }

  /** `addMonumentAdditionalCategories`. */
  method AddMonumentAdditionalCategories(db: Database, categories: CategoryInput, monumentId: Id)
    returns (newCategoryObjectIds: seq<Id>)
    requires db.Valid()
    modifies db`categories, db`nextId
    ensures db.Valid()
    ensures Tally(db.categories, db.nextId, newCategoryObjectIds)
         == AddAdditionalSpec(old(db.categories), old(db.nextId), categories, monumentId)
  {
    match categories
    case Absent =>
      newCategoryObjectIds := [];
    case One(t) =>
      newCategoryObjectIds := PushOrCreate(db, Filter(db.categories, OtherTitled(t)), t, monumentId);
    case Several(ts) =>
      var categoryQuery := Filter(db.categories, OtherTitledIn(ts));
      if |categoryQuery| == |ts| {
        newCategoryObjectIds := PushToEach(db, categoryQuery, monumentId);
      } else {
        newCategoryObjectIds := AddEachTitle(db, ts, monumentId);
      }
  }

  /** Lines 118-131: walk the non-province snapshot and push onto the first
      category with each title that was ticked. */
  method RetainTicked(db: Database, otherCategories: seq<Category>, ts: seq<string>, monumentId: Id)
    returns (ids: seq<Id>)
    requires db.Valid()
    modifies db`categories
    ensures db.Valid()
    ensures Tally(db.categories, db.nextId, ids)
         == Retain(Tally(old(db.categories), db.nextId, []), otherCategories, ts, monumentId)
  {
    ghost var start := Tally(db.categories, db.nextId, []);
    ids := [];
    var i := 0;
    while i < |otherCategories|
      invariant 0 <= i <= |otherCategories|
      invariant db.Valid()
      invariant Tally(db.categories, db.nextId, ids) == Retain(start, otherCategories[..i], ts, monumentId)
    {
      assert otherCategories[..i + 1][..i] == otherCategories[..i];
      var title := otherCategories[i].title;
      var existingCategoryCheck := WithTitle(db.categories, title);
      if |existingCategoryCheck| > 0 && title in ts {
        assert existingCategoryCheck[0] in existingCategoryCheck;
        db.PushToFirstTitled(existingCategoryCheck[0].title, monumentId);
        ids := ids + [existingCategoryCheck[0].id];
      }
      i := i + 1;
    }
    assert otherCategories[..i] == otherCategories;
  }

  /** One title of lines 134-146: created unless exactly one category has it. */
  method CreateIfUnmatched(db: Database, t: string, monumentId: Id, ids0: seq<Id>) returns (ids: seq<Id>)
    requires db.Valid()
    modifies db`categories, db`nextId
    ensures db.Valid()
    ensures Tally(db.categories, db.nextId, ids) == CreateStep(Tally(old(db.categories), old(db.nextId), ids0), t, monumentId)
  {
    ids := ids0;
    var existingCategoryCheck := WithTitle(db.categories, t);
    if |existingCategoryCheck| != 1 {
      var id := db.InsertCategory(t, [monumentId]);
      ids := ids + [id];
    }
  }

  /** Lines 134-146: create a category for every title without exactly one. */
  method CreateUnmatched(db: Database, ts: seq<string>, monumentId: Id, ids0: seq<Id>) returns (ids: seq<Id>)
    requires db.Valid()
    modifies db`categories, db`nextId
    ensures db.Valid()
    ensures Tally(db.categories, db.nextId, ids) == CreateMissing(Tally(old(db.categories), old(db.nextId), ids0), ts, monumentId)
  {
    ghost var start := Tally(db.categories, db.nextId, ids0);
    ids := ids0;
    var i := 0;
    while i < |ts|
      invariant 0 <= i <= |ts|
      invariant db.Valid()
      invariant Tally(db.categories, db.nextId, ids) == CreateMissing(start, ts[..i], monumentId)
    {
      assert ts[..i + 1][..i] == ts[..i];
      ids := CreateIfUnmatched(db, ts[i], monumentId, ids);
      i := i + 1;
    }
    assert ts[..i] == ts;
  }

  /** `editMonumentAdditionalCategories`. */
  method EditMonumentAdditionalCategories(db: Database, categories: CategoryInput, monumentId: Id)
    returns (newCategoryObjectIds: seq<Id>)
    requires db.Valid()
    modifies db`categories, db`nextId
    ensures db.Valid()
    ensures Tally(db.categories, db.nextId, newCategoryObjectIds)
         == EditAdditionalSpec(old(db.categories), old(db.nextId), categories, monumentId)
  {
    match categories
    case Absent =>
      newCategoryObjectIds := [];
    case One(t) =>
      newCategoryObjectIds := PushOrCreate(db, WithTitle(db.categories, t), t, monumentId);
    case Several(ts) =>
      var retained := RetainTicked(db, OtherPart(db.categories), ts, monumentId);
      newCategoryObjectIds := CreateUnmatched(db, ts, monumentId, retained);
  }
}
