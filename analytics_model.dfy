/** The Analytics schema (models/Analytics.js): one bucket per calendar day with a visit counter,
    an order counter and two lists of per-product and per-category order counts. Days are integer
    day numbers. The `date` field is indexed but not unique, so nothing in the schema stops two
    buckets for the same day; the routes always work on the first one. */
module AnalyticsModel {
  import opened Common

  /** One entry of `produits` or `categories`: the referenced id (as the `toString()` text of
      the stored ObjectId, absent when the order named none), the display name, and the order
      count. */
  datatype Entry = Entry(key: Option<string>, nom: Option<string>, commandes: int)

  // ---------------------------------------------------------------------------
  // ObjectId references
  // ---------------------------------------------------------------------------

  predicate IsHexDigit(c: char) {
    '0' <= c <= '9' || 'a' <= c <= 'f' || 'A' <= c <= 'F'
  }

  /** The text of a stored ObjectId: 24 lower-case hexadecimal digits. */
  predicate IsIdText(s: string) {
    |s| == 24 && forall i :: 0 <= i < |s| ==> ('0' <= s[i] <= '9' || 'a' <= s[i] <= 'f')
  }

  /** The cast of a body string to the ObjectId type of `produitId` and `categorieId`: 24
      hexadecimal digits in either case are accepted, and the stored id prints as the same
      digits in lower case; any other string fails the cast. */
  function CastObjectId(s: string): (r: Option<string>)
    ensures r.Some? <==> |s| == 24 && forall i :: 0 <= i < |s| ==> IsHexDigit(s[i])
    ensures r.Some? ==> IsIdText(r.value) && |r.value| == |s|
  {
    if |s| == 24 && forall i :: 0 <= i < |s| ==> IsHexDigit(s[i]) then Some(Lower(s)) else None
  }

  /** The text of a stored id casts back to itself, and a cast id differs from the body string
      only in the case of its letters. */
  lemma CastObjectIdText(s: string)
    ensures IsIdText(s) ==> CastObjectId(s) == Some(s)
    ensures CastObjectId(s).Some? ==>
      forall i :: 0 <= i < |s| ==> CastObjectId(s).value[i] == LowerChar(s[i])
  {
    if IsIdText(s) {
      assert forall i :: 0 <= i < |s| ==> LowerChar(s[i]) == s[i];
      assert Lower(s) == s;
    }
  }

  /** The id an order names casts: it is absent, or a valid ObjectId string. */
  predicate Casts(key: Option<string>) {
    key.None? || CastObjectId(key.value).Some?
  }

  /** What a new entry stores for the id an order names. */
  function StoredKey(key: Option<string>): (r: Option<string>)
    requires Casts(key)
    ensures r.None? <==> key.None?
    ensures r.Some? ==> IsIdText(r.value)
  {
    if key.None? then None else CastObjectId(key.value)
  }

  /** An id already in the stored form: absent, or the text of an ObjectId. */
  predicate Canonical(key: Option<string>) {
    key.None? || IsIdText(key.value)
  }

  datatype Bucket = Bucket(
    id: nat,
    date: int,
    visites: int,
    commandes: int,
    produits: seq<Entry>,
    categories: seq<Entry>)

  /** A bucket created for `day` with every counter at its default, 0, and empty lists. */
  function EmptyBucket(id: nat, day: int): (b: Bucket)
    ensures b.date == day && b.visites == 0 && b.commandes == 0
    ensures b.produits == [] && b.categories == []
  {
    Bucket(id, day, 0, 0, [], [])
  }

  /** The first bucket of the given day, in collection order (`findOne({ date })`). */
  function DayIndex(docs: seq<Bucket>, day: int): (r: Option<nat>)
    ensures r.Some? ==> r.value < |docs| && docs[r.value].date == day
    ensures r.Some? ==> forall k :: 0 <= k < r.value ==> docs[k].date != day
    ensures r.None? ==> forall k :: 0 <= k < |docs| ==> docs[k].date != day
  {
    FindFirst(docs, (b: Bucket) => b.date == day)
  }

  /** The sum of the order counts of a list of entries. */
  function Sum(es: seq<Entry>): int {
    SumOf(es, (e: Entry) => e.commandes)
  }

  /** A list of one entry sums to its count. */
  lemma SumSingle(e: Entry)
    ensures Sum([e]) == e.commandes
  {
    SumOfAppend([], e, (x: Entry) => x.commandes);
    assert [] + [e] == [e];
  }

  /** No two entries of the list name the same id. */
  predicate DistinctKeys(es: seq<Entry>) {
    forall i, j :: 0 <= i < j < |es| ==> es[i].key != es[j].key
  }

  /** Each list's counts add up to the bucket's order counter. */
  predicate CountsAddUp(b: Bucket) {
    Sum(b.produits) == b.commandes && Sum(b.categories) == b.commandes
  }

  /** The counts add up and each list names every id once. */
  predicate Consistent(b: Bucket) {
    CountsAddUp(b) && DistinctKeys(b.produits) && DistinctKeys(b.categories)
  }

  predicate UniqueIds(docs: seq<Bucket>) {
    forall i, j :: 0 <= i < j < |docs| ==> docs[i].id != docs[j].id
  }

  /** The `analytics` collection. */
  class AnalyticsCollection {
    var docs: seq<Bucket>
    var nextId: nat

    ghost predicate Valid()
      reads this
    {
      UniqueIds(docs) && forall i :: 0 <= i < |docs| ==> docs[i].id < nextId
    }

    constructor ()
      ensures Valid() && docs == [] && nextId == 0
    {
      docs := [];
      nextId := 0;
    }
  }
}
