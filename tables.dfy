/** Generic operations on an in-memory collection of documents: the queries
    and updates the document store performs, independent of the record type.
    Every list function recurses on the LAST element, so that a loop over a
    prefix `s[..i]` can be specified by applying the function to that prefix. */
module Tables {
  import opened Wrappers

  /** Document identifiers (the store's ObjectIds), handed out by a counter. */
  type Id = nat

  /** The elements of `s` that satisfy `p`, in their original order: what a
      `find` query returns, and what a `deleteMany` keeps (with `p` negated). */
  function Filter<T(!new)>(s: seq<T>, p: T -> bool): (r: seq<T>)
    ensures |r| <= |s|
    ensures forall x :: x in r <==> x in s && p(x)
    decreases |s|
  {
    if s == [] then []
    else
      assert s == s[..|s| - 1] + [s[|s| - 1]];
      Filter(s[..|s| - 1], p) + (if p(s[|s| - 1]) then [s[|s| - 1]] else [])
  }

  lemma FilterAppend<T(!new)>(s: seq<T>, x: T, p: T -> bool)
    ensures Filter(s + [x], p) == Filter(s, p) + (if p(x) then [x] else [])
  {
    assert (s + [x])[..|s|] == s;
  }

  /** A query that no element matches returns nothing. */
  lemma {:induction false} FilterNone<T(!new)>(s: seq<T>, p: T -> bool)
    requires forall i :: 0 <= i < |s| ==> !p(s[i])
    ensures Filter(s, p) == []
    decreases |s|
  {
    if s != [] {
      FilterNone(s[..|s| - 1], p);
    }
  }

  /** Selecting by a predicate and by its negation splits a collection in two:
      every element lands in exactly one part, as often as it occurs. */
  lemma {:induction false} FilterPartition<T(!new)>(s: seq<T>, p: T -> bool, q: T -> bool)
    requires forall x :: q(x) == !p(x)
    ensures |Filter(s, p)| + |Filter(s, q)| == |s|
    ensures multiset(Filter(s, p)) + multiset(Filter(s, q)) == multiset(s)
  {
    if s != [] {
      var init, x := s[..|s| - 1], s[|s| - 1];
      FilterPartition(init, p, q);
      assert s == init + [x];
      var fp, fq := Filter(init, p), Filter(init, q);
      assert Filter(s, p) == fp + (if p(x) then [x] else []);
      assert Filter(s, q) == fq + (if p(x) then [] else [x]);
      SplitAppend(fp, fq, init, x, Filter(s, p), Filter(s, q), s);
    }
  }

  /** Appending `x` to the whole and to one of two parts that split it keeps the split. */
  lemma SplitAppend<T>(a: seq<T>, b: seq<T>, c: seq<T>, x: T, a': seq<T>, b': seq<T>, c': seq<T>)
    requires multiset(a) + multiset(b) == multiset(c) && c' == c + [x]
    requires (a' == a + [x] && b' == b) || (a' == a && b' == b + [x])
    ensures multiset(a') + multiset(b') == multiset(c')
  {
  }

  /** The index of the first element that satisfies `p`. */
  function FirstIndex<T>(s: seq<T>, p: T -> bool): (r: Option<nat>)
    ensures r.Some? ==> r.value < |s| && p(s[r.value]) && forall j :: 0 <= j < r.value ==> !p(s[j])
    ensures r.None? ==> forall j :: 0 <= j < |s| ==> !p(s[j])
    decreases |s|
  {
    if s == [] then None
    else
      match FirstIndex(s[..|s| - 1], p)
      case Some(k) => Some(k)
      case None => if p(s[|s| - 1]) then Some(|s| - 1) else None
  }

  /** The first document a query returns is the first matching document of the collection. */
  lemma {:induction false} FilterHead<T(!new)>(s: seq<T>, p: T -> bool)
    requires Filter(s, p) != []
    ensures FirstIndex(s, p).Some? && Filter(s, p)[0] == s[FirstIndex(s, p).value]
  {
    var init := s[..|s| - 1];
    if Filter(init, p) != [] {
      FilterHead(init, p);
    }
  }

  /** The identifiers of the documents, in collection order. */
  function Keys<T>(s: seq<T>, key: T -> Id): (r: seq<Id>)
    ensures |r| == |s| && forall i :: 0 <= i < |s| ==> r[i] == key(s[i])
  {
    Column(s, key)
  }

  /** One field of every record, in table order. */
  function Column<T, U>(s: seq<T>, field: T -> U): (r: seq<U>)
    ensures |r| == |s| && forall i :: 0 <= i < |s| ==> r[i] == field(s[i])
  {
    seq(|s|, i requires 0 <= i < |s| => field(s[i]))
  }

  /** Every id was handed out before `next`, and no two documents share one. */
  ghost predicate IdsValid(ids: seq<Id>, next: Id) {
    && (forall i :: 0 <= i < |ids| ==> ids[i] < next)
    && (forall i, j :: 0 <= i < j < |ids| ==> ids[i] != ids[j])
  }

  ghost predicate KeysValid<T>(s: seq<T>, key: T -> Id, next: Id) {
    IdsValid(Keys(s, key), next)
  }

  /** The next id is not taken yet. */
  lemma FreshKey<T>(s: seq<T>, key: T -> Id, next: Id)
    requires KeysValid(s, key, next)
    ensures next !in Keys(s, key)
  {
  }

  lemma KeysValidGrow<T>(s: seq<T>, key: T -> Id, next: Id, next': Id)
    requires KeysValid(s, key, next) && next <= next'
    ensures KeysValid(s, key, next')
  {
  }

  /** Inserting a document under the next id keeps the discipline. */
  lemma KeysValidAppend<T>(s: seq<T>, x: T, key: T -> Id, next: Id)
    requires KeysValid(s, key, next) && key(x) == next
    ensures KeysValid(s + [x], key, next + 1)
  {
    assert Keys(s + [x], key) == Keys(s, key) + [next];
  }

  /** An update that keeps every document's id keeps the discipline. */
  lemma KeysValidSameKeys<T>(s: seq<T>, t: seq<T>, key: T -> Id, next: Id)
    requires KeysValid(s, key, next)
    requires |t| == |s| && forall i :: 0 <= i < |s| ==> key(t[i]) == key(s[i])
    ensures KeysValid(t, key, next)
  {
    assert Keys(t, key) == Keys(s, key);
  }

  /** Deleting documents keeps the discipline. */
  lemma {:induction false} KeysValidFilter<T(!new)>(s: seq<T>, p: T -> bool, key: T -> Id, next: Id)
    requires KeysValid(s, key, next)
    ensures KeysValid(Filter(s, p), key, next)
  {
    if s != [] {
      var init, x := s[..|s| - 1], s[|s| - 1];
      assert Keys(init, key) == Keys(s, key)[..|s| - 1];
      KeysValidFilter(init, p, key, next);
      if p(x) {
        var f := Filter(init, p);
        assert Filter(s, p) == f + [x];
        forall y | y in f ensures key(y) != key(x) {
          var k :| 0 <= k < |init| && init[k] == y;
          assert Keys(s, key)[k] == key(y) && Keys(s, key)[|s| - 1] == key(x);
        }
        assert Keys(f + [x], key) == Keys(f, key) + [key(x)];
        assert forall i :: 0 <= i < |f| ==> Keys(f, key)[i] == key(f[i]) && f[i] in f;
      }
    }
  }

  function KeyIs<T>(key: T -> Id, id: Id): T -> bool {
    (x: T) => key(x) == id
  }

  function KeyIsNot<T>(key: T -> Id, id: Id): T -> bool {
    (x: T) => key(x) != id
  }

  /** `findById`: the document with the given id, if any. */
  function FindByKey<T>(s: seq<T>, key: T -> Id, id: Id): (r: Option<T>)
    ensures r.Some? ==> r.value in s && key(r.value) == id
    ensures r.None? <==> id !in Keys(s, key)
  {
    match FirstIndex(s, KeyIs(key, id))
    case Some(k) => Some(s[k])
    case None =>
      assert forall j :: 0 <= j < |s| ==> Keys(s, key)[j] != id;
      None
  }

  /** `doc.save()` of a document loaded earlier: the stored document with its id is replaced. */
  function SaveByKey<T>(s: seq<T>, key: T -> Id, x: T): (r: seq<T>)
    ensures |r| == |s|
    ensures forall i :: 0 <= i < |s| ==> r[i] == if key(s[i]) == key(x) then x else s[i]
    ensures Keys(r, key) == Keys(s, key)
  {
    var r := seq(|s|, i requires 0 <= i < |s| => if key(s[i]) == key(x) then x else s[i]);
    assert forall i :: 0 <= i < |s| ==> Keys(r, key)[i] == Keys(s, key)[i];
    r
  }

  /** `deleteOne({_id: id})`: ids are unique, so this drops every document with that id. */
  function DeleteByKey<T(!new)>(s: seq<T>, key: T -> Id, id: Id): (r: seq<T>)
    ensures forall x :: x in r <==> x in s && key(x) != id
    ensures id !in Keys(r, key)
  {
    var r := Filter(s, KeyIsNot(key, id));
    assert forall i :: 0 <= i < |r| ==> r[i] in r;
    r
  }

  /** After a save, looking the document up by its id finds what was saved. */
  lemma FindAfterSave<T>(s: seq<T>, key: T -> Id, x: T)
    requires key(x) in Keys(s, key)
    ensures FindByKey(SaveByKey(s, key, x), key, key(x)) == Some(x)
  {
    var r := SaveByKey(s, key, x);
    var j :| 0 <= j < |s| && Keys(s, key)[j] == key(x);
    assert Keys(r, key)[j] == key(x);
    var f := FindByKey(r, key, key(x));
    var i :| 0 <= i < |r| && r[i] == f.value;
  }

  /** Saving a document that was inserted last, under an id no earlier document has, rewrites only that last document. */
  lemma SaveLast<T>(s: seq<T>, y: T, key: T -> Id, x: T)
    requires key(y) == key(x) && key(x) !in Keys(s, key)
    ensures SaveByKey(s + [y], key, x) == s + [x]
  {
    assert forall i :: 0 <= i < |s| ==> Keys(s, key)[i] == key(s[i]);
  }
}
