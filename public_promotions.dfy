/** The public promotion routes (controllers/publicPromotions.js): read-only queries over the
    promotion collection at the instant `now`. None of them changes anything and none answers
    an error other than a storage failure, which is not part of this model. */
module PublicPromotions {
  import opened Common
  import opened Sorting
  import opened PromotionModel

  /** The query filter `{ actif: true, dateDebut: { $lte: now }, dateFin: { $gte: now } }`. */
  predicate InWindow(p: Promotion, now: int) {
    p.actif == true && p.dateDebut <= now && now <= p.dateFin
  }

  /** The query filter and the `estActive` virtual evaluated at the same instant agree. */
  lemma InWindowIsEstActive(p: Promotion, now: int)
    ensures InWindow(p, now) <==> EstActive(p, now)
  {
  }

  /** `GET /active`: the promotions in their window at `now`, newest first. */
  function Active(docs: seq<Promotion>, now: int): (r: seq<Promotion>)
    ensures multiset(r) == multiset(Filter(docs, (p: Promotion) => InWindow(p, now)))
    ensures forall p :: p in r <==> p in docs && EstActive(p, now)
  {
    var r := SortBy(Filter(docs, (p: Promotion) => InWindow(p, now)), NewestFirst);
    assert forall p :: p in r <==> p in multiset(r);
    r
  }

  /** `GET /tombola`: the same window, restricted to tombola promotions, newest first. */
  function Tombolas(docs: seq<Promotion>, now: int): (r: seq<Promotion>)
    ensures multiset(r) ==
      multiset(Filter(docs, (p: Promotion) => p.kind == Tombola && InWindow(p, now)))
    ensures forall p :: p in r <==> p in docs && p.kind == Tombola && EstActive(p, now)
  {
    var r := SortBy(Filter(docs, (p: Promotion) => p.kind == Tombola && InWindow(p, now)),
                    NewestFirst);
    assert forall p :: p in r <==> p in multiset(r);
    r
  }

  /** Both listings are newest first. */
  lemma ListingsNewestFirst(docs: seq<Promotion>, now: int)
    ensures var r := Active(docs, now);
      forall i, j :: 0 <= i < j < |r| ==> r[i].createdAt >= r[j].createdAt
    ensures var r := Tombolas(docs, now);
      forall i, j :: 0 <= i < j < |r| ==> r[i].createdAt >= r[j].createdAt
  {
    SortBySorted(Filter(docs, (p: Promotion) => InWindow(p, now)), NewestFirst);
    NewestFirstSorted(Active(docs, now));
    SortBySorted(Filter(docs, (p: Promotion) => p.kind == Tombola && InWindow(p, now)),
                 NewestFirst);
    NewestFirstSorted(Tombolas(docs, now));
  }

  /** The tombola listing holds exactly the tombolas of the active listing, each as often:
      filtering the active listing by type gives the same promotions. Both are newest first
      (`ListingsNewestFirst`), so they can differ only in the order of promotions created at
      the same instant. */
  lemma TombolasWithinActive(docs: seq<Promotion>, now: int)
    ensures multiset(Tombolas(docs, now)) ==
      multiset(Filter(Active(docs, now), (p: Promotion) => p.kind == Tombola))
    ensures |Tombolas(docs, now)| <= |Active(docs, now)|
    ensures forall p :: p in Tombolas(docs, now) ==> p in Active(docs, now)
  {
    var isTombola := (p: Promotion) => p.kind == Tombola;
    var inWindow := (p: Promotion) => InWindow(p, now);
    var both := (p: Promotion) => p.kind == Tombola && InWindow(p, now);
    var a := Active(docs, now);
    var t := Tombolas(docs, now);
    assert multiset(a) == multiset(Filter(docs, inWindow));
    assert multiset(t) == multiset(Filter(docs, both));
    forall x: Promotion
      ensures multiset(t)[x] == multiset(Filter(a, isTombola))[x]
    {
      FilterMultiplicity(docs, both, x);
      FilterMultiplicity(docs, inWindow, x);
      FilterMultiplicity(a, isTombola, x);
    }
    assert multiset(t) == multiset(Filter(a, isTombola));
    assert |t| == |multiset(t)|;
    assert |Filter(a, isTombola)| == |multiset(Filter(a, isTombola))|;
  }

  /** The `findOne` filter of `GET /category/:categoryId`. */
  predicate OffersCategory(p: Promotion, categoryId: nat, now: int) {
    p.kind == StockLimite && p.categorie == Some(categoryId) && InWindow(p, now)
  }

  /** `GET /category/:categoryId`: the first stock-limite promotion of that category in its
      window, in collection order, or none; the answer is a success either way. */
  function ForCategory(docs: seq<Promotion>, categoryId: nat, now: int): (reply: Reply<Promotion>)
    ensures reply.status == OK
    ensures reply.record.Some? ==>
      var p := reply.record.value;
      p in docs && p.kind == StockLimite && p.categorie == Some(categoryId) && EstActive(p, now)
    ensures reply.record.None? <==>
      forall k :: 0 <= k < |docs| ==> !OffersCategory(docs[k], categoryId, now)
  {
    match FindFirst(docs, (p: Promotion) => OffersCategory(p, categoryId, now))
    case None => Reply(OK, None)
    case Some(i) => Reply(OK, Some(docs[i]))
  }

  /** The answer is the earliest stored match: no promotion before it offers the category. */
  lemma ForCategoryIsFirst(docs: seq<Promotion>, categoryId: nat, now: int, k: nat)
    requires ForCategory(docs, categoryId, now).record.Some?
    requires k < |docs| && OffersCategory(docs[k], categoryId, now)
    ensures exists j :: 0 <= j <= k && docs[j] == ForCategory(docs, categoryId, now).record.value
  {
    var i := FindFirst(docs, (p: Promotion) => OffersCategory(p, categoryId, now)).value;
    assert i <= k;
  }
}
