/** The analytics routes (controllers/analyticsRoutes.js): `/visite` and `/commande`, which raise
    the counters of today's bucket, and `/dashboard`, which reads the last 30 days back as a
    daily series, two grand totals and the most ordered product and category. `now` is a
    parameter; today is the day number `now / DAY_MS`. */
module AnalyticsRoutes {
  import opened Common
  import opened Sorting
  import opened AnalyticsModel

  /** The day number of `now`. */
  function Today(now: int): int {
    now / DAY_MS
  }

  /** Today is the day whose span of `DAY_MS` milliseconds contains `now`. */
  lemma TodaySpan(now: int)
    ensures Today(now) * DAY_MS <= now < (Today(now) + 1) * DAY_MS
  {
  }

  // ---------------------------------------------------------------------------
  // POST /visite
  // ---------------------------------------------------------------------------

  /** The visits recorded for a day: those of its first bucket, 0 without one. */
  function VisitsOn(docs: seq<Bucket>, day: int): int {
    match DayIndex(docs, day)
    case Some(i) => docs[i].visites
    case None => 0
  }

  /** The collection after a visit: today's first bucket gets one more visit, or a bucket for
      today with one visit is created. */
  function AfterVisit(docs: seq<Bucket>, nextId: nat, day: int): seq<Bucket> {
    match DayIndex(docs, day)
    case Some(i) => docs[i := docs[i].(visites := docs[i].visites + 1)]
    case None => docs + [EmptyBucket(nextId, day).(visites := 1)]
  }

  /** A visit raises the day's count by exactly one and leaves every other day's count, and
      every other counter, as it was. */
  lemma VisitCountsOne(docs: seq<Bucket>, nextId: nat, day: int, other: int)
    requires other != day
    ensures VisitsOn(AfterVisit(docs, nextId, day), day) == VisitsOn(docs, day) + 1
    ensures VisitsOn(AfterVisit(docs, nextId, day), other) == VisitsOn(docs, other)
    ensures var after := AfterVisit(docs, nextId, day);
      forall k :: 0 <= k < |docs| ==>
        after[k] == docs[k].(visites := after[k].visites)
  {
    var after := AfterVisit(docs, nextId, day);
    match DayIndex(docs, day)
    case Some(i) =>
      assert DayIndex(after, day) == Some(i) by {
        assert after[i].date == day;
        assert forall k :: 0 <= k < i ==> after[k] == docs[k];
      }
      assert forall k :: 0 <= k < |after| ==> (after[k].date == other <==> docs[k].date == other);
      SameDaysSameIndex(docs, after, other);
    case None =>
      assert after[|docs|].date == day;
      assert DayIndex(after, day) == Some(|docs|);
      assert forall k :: 0 <= k < |docs| ==> after[k] == docs[k];
      assert DayIndex(after, other) == DayIndex(docs, other);
  }

  /** Two collections whose buckets sit on the same days find the same first bucket for a day
      that both have or both lack. */
  lemma SameDaysSameIndex(a: seq<Bucket>, b: seq<Bucket>, day: int)
    requires |a| == |b|
    requires forall k :: 0 <= k < |a| ==> (a[k].date == day <==> b[k].date == day)
    ensures DayIndex(a, day) == DayIndex(b, day)
  {
    var ra, rb := DayIndex(a, day), DayIndex(b, day);
    if ra.Some? && rb.Some? {
      assert !(ra.value < rb.value) && !(rb.value < ra.value);
    }
  }

  method Visite(coll: AnalyticsCollection, now: int) returns (status: int)
    requires coll.Valid()
    modifies coll
    ensures coll.Valid() && status == OK
    ensures coll.docs == AfterVisit(old(coll.docs), old(coll.nextId), Today(now))
    ensures coll.nextId == old(coll.nextId) + (if |coll.docs| > |old(coll.docs)| then 1 else 0)
  {
    var today := Today(now);
    var found := DayIndex(coll.docs, today);
    if found.Some? {
      var i := found.value;
      coll.docs := coll.docs[i := coll.docs[i].(visites := coll.docs[i].visites + 1)];
    } else {
      coll.docs := coll.docs + [EmptyBucket(coll.nextId, today).(visites := 1)];
      coll.nextId := coll.nextId + 1;
    }
    status := OK;
  }

  // ---------------------------------------------------------------------------
  // POST /commande
  // ---------------------------------------------------------------------------

  /** The first entry naming `key` (`findIndex` on the entry's id). */
  function EntryIndex(es: seq<Entry>, key: Option<string>): (r: Option<nat>)
    ensures r.Some? ==> r.value < |es| && es[r.value].key == key
    ensures r.None? ==> forall k :: 0 <= k < |es| ==> es[k].key != key
  {
    FindFirst(es, (e: Entry) => e.key == key)
  }

  /** Counting one more order of `key`: the entry whose stored id prints as the body string
      gains one; otherwise an entry with count 1 is pushed, its id cast from the body string.
      `None` when that cast fails, which fails the whole save. */
  function Bump(es: seq<Entry>, key: Option<string>, nom: Option<string>): Option<seq<Entry>> {
    match EntryIndex(es, key)
    case Some(j) => Some(es[j := es[j].(commandes := es[j].commandes + 1)])
    case None => if Casts(key) then Some(es + [Entry(StoredKey(key), nom, 1)]) else None
  }

  /** Only the entry for `key` changes, by one; an unknown key gets a new entry at the end,
      holding the cast id; an unknown key that does not cast fails. */
  lemma BumpChangesOneEntry(es: seq<Entry>, key: Option<string>, nom: Option<string>)
    ensures Bump(es, key, nom).None? <==> EntryIndex(es, key).None? && !Casts(key)
    ensures Bump(es, key, nom).Some? ==> var r := Bump(es, key, nom).value;
      && (EntryIndex(es, key).Some? ==> |r| == |es|)
      && (EntryIndex(es, key).None? ==> |r| == |es| + 1 && r[|es|] == Entry(StoredKey(key), nom, 1))
      && (forall k :: 0 <= k < |es| && es[k].key != key ==> r[k] == es[k])
      && (forall k :: 0 <= k < |es| && EntryIndex(es, key) == Some(k) ==>
            r[k] == es[k].(commandes := es[k].commandes + 1))
  {
  }

  /** A successful bump adds exactly one to the sum of the counts, and keeps the ids distinct
      when the body names the id in its stored, lower-case form. */
  lemma BumpKeepsInvariant(es: seq<Entry>, key: Option<string>, nom: Option<string>)
    ensures Bump(es, key, nom).Some? ==> Sum(Bump(es, key, nom).value) == Sum(es) + 1
    ensures Bump(es, key, nom).Some? && DistinctKeys(es) && Canonical(key) ==>
      DistinctKeys(Bump(es, key, nom).value)
  {
    var f := (e: Entry) => e.commandes;
    match EntryIndex(es, key)
    case Some(j) =>
      SumOfUpdate(es, j, es[j].(commandes := es[j].commandes + 1), f);
    case None =>
      if Casts(key) {
        SumOfAppend(es, Entry(StoredKey(key), nom, 1), f);
        if key.Some? {
          CastObjectIdText(key.value);
        }
      }
  }

  /** The lookup compares the stored id's lower-case text with the body string, while the push
      casts it: ordering an upper-case id that is already counted pushes a second entry for
      the same id. */
  lemma UpperCaseIdRepeats(nom: Option<string>)
    ensures var lower, upper := seq(24, i => 'a'), seq(24, i => 'A');
      var es := [Entry(Some(lower), nom, 1)];
      && Bump(es, Some(upper), nom) == Some(es + [Entry(Some(lower), nom, 1)])
      && !DistinctKeys(Bump(es, Some(upper), nom).value)
  {
    var lower, upper := seq(24, i => 'a'), seq(24, i => 'A');
    var es := [Entry(Some(lower), nom, 1)];
    assert es[0].key != Some(upper) by {
      assert lower[0] != upper[0];
    }
    assert CastObjectId(upper) == Some(lower) by {
      assert forall i :: 0 <= i < |upper| ==> IsHexDigit(upper[i]);
      assert LowerChar('A') == 'a';
      assert forall i :: 0 <= i < |upper| ==> Lower(upper)[i] == lower[i];
      assert Lower(upper) == lower;
    }
    var r := es + [Entry(Some(lower), nom, 1)];
    assert r[0].key == r[1].key;
  }

  /** The order route's change to an existing bucket: `None` when a pushed id does not cast. */
  function Ordered(b: Bucket, produitId: Option<string>, produitNom: Option<string>,
                   categorieId: Option<string>, categorieNom: Option<string>): Option<Bucket> {
    match (Bump(b.produits, produitId, produitNom), Bump(b.categories, categorieId, categorieNom))
    case (Some(produits), Some(categories)) =>
      Some(b.(commandes := b.commandes + 1, produits := produits, categories := categories))
    case _ => None
  }

  /** The bucket the order route creates when today has none: both ids are cast. */
  function FirstOrder(id: nat, day: int, produitId: Option<string>, produitNom: Option<string>,
                      categorieId: Option<string>, categorieNom: Option<string>): Bucket
    requires Casts(produitId) && Casts(categorieId)
  {
    EmptyBucket(id, day).(commandes := 1,
                          produits := [Entry(StoredKey(produitId), produitNom, 1)],
                          categories := [Entry(StoredKey(categorieId), categorieNom, 1)])
  }

  /** The collection after an order, or `None` when the save or the create fails on an id that
      does not cast. */
  function AfterOrder(docs: seq<Bucket>, nextId: nat, day: int,
                      produitId: Option<string>, produitNom: Option<string>,
                      categorieId: Option<string>, categorieNom: Option<string>): Option<seq<Bucket>> {
    match DayIndex(docs, day)
    case Some(i) =>
      (match Ordered(docs[i], produitId, produitNom, categorieId, categorieNom)
       case Some(b) => Some(docs[i := b])
       case None => None)
    case None =>
      if Casts(produitId) && Casts(categorieId) then
        Some(docs + [FirstOrder(nextId, day, produitId, produitNom, categorieId, categorieNom)])
      else None
  }

  /** An order that succeeds keeps every bucket's counts adding up to its order counter. */
  lemma OrderKeepsCounts(docs: seq<Bucket>, nextId: nat, day: int,
                         produitId: Option<string>, produitNom: Option<string>,
                         categorieId: Option<string>, categorieNom: Option<string>)
    requires forall k :: 0 <= k < |docs| ==> CountsAddUp(docs[k])
    ensures var after := AfterOrder(docs, nextId, day, produitId, produitNom,
                                    categorieId, categorieNom);
      after.Some? ==> forall k :: 0 <= k < |after.value| ==> CountsAddUp(after.value[k])
  {
    var after := AfterOrder(docs, nextId, day, produitId, produitNom, categorieId, categorieNom);
    if after.Some? {
      var found := DayIndex(docs, day);
      if found.Some? {
        var i := found.value;
        var b := Ordered(docs[i], produitId, produitNom, categorieId, categorieNom).value;
        assert after.value == docs[i := b];
        OrderedConsistent(docs[i], produitId, produitNom, categorieId, categorieNom);
        forall k | 0 <= k < |after.value|
          ensures CountsAddUp(after.value[k])
        {
          if k != i {
            assert after.value[k] == docs[k];
          }
        }
      } else {
        var b := FirstOrder(nextId, day, produitId, produitNom, categorieId, categorieNom);
        assert after.value == docs + [b];
        FirstOrderConsistent(nextId, day, produitId, produitNom, categorieId, categorieNom);
        forall k | 0 <= k < |after.value|
          ensures CountsAddUp(after.value[k])
        {
          if k < |docs| {
            assert after.value[k] == docs[k];
          }
        }
      }
    }
  }

  /** When both ids come in their stored form, a successful order keeps every bucket
      consistent: ids distinct in each list and counts adding up. */
  lemma OrderKeepsConsistent(docs: seq<Bucket>, nextId: nat, day: int,
                             produitId: Option<string>, produitNom: Option<string>,
                             categorieId: Option<string>, categorieNom: Option<string>)
    requires forall k :: 0 <= k < |docs| ==> Consistent(docs[k])
    requires Canonical(produitId) && Canonical(categorieId)
    ensures var after := AfterOrder(docs, nextId, day, produitId, produitNom,
                                    categorieId, categorieNom);
      after.Some? ==> forall k :: 0 <= k < |after.value| ==> Consistent(after.value[k])
  {
    var after := AfterOrder(docs, nextId, day, produitId, produitNom, categorieId, categorieNom);
    if after.Some? {
      var found := DayIndex(docs, day);
      if found.Some? {
        var i := found.value;
        var b := Ordered(docs[i], produitId, produitNom, categorieId, categorieNom).value;
        assert after.value == docs[i := b];
        OrderedConsistent(docs[i], produitId, produitNom, categorieId, categorieNom);
        forall k | 0 <= k < |after.value|
          ensures Consistent(after.value[k])
        {
          if k != i {
            assert after.value[k] == docs[k];
          }
        }
      } else {
        var b := FirstOrder(nextId, day, produitId, produitNom, categorieId, categorieNom);
        assert after.value == docs + [b];
        FirstOrderConsistent(nextId, day, produitId, produitNom, categorieId, categorieNom);
        forall k | 0 <= k < |after.value|
          ensures Consistent(after.value[k])
        {
          if k < |docs| {
            assert after.value[k] == docs[k];
          }
        }
      }
    }
  }

  /** The update of an existing bucket fails exactly when a pushed id does not cast; when it
      succeeds the counts still add up, and the ids stay distinct when the body names them in
      their stored form. */
  lemma OrderedConsistent(b: Bucket, produitId: Option<string>, produitNom: Option<string>,
                          categorieId: Option<string>, categorieNom: Option<string>)
    ensures Ordered(b, produitId, produitNom, categorieId, categorieNom).None? <==>
      || (EntryIndex(b.produits, produitId).None? && !Casts(produitId))
      || (EntryIndex(b.categories, categorieId).None? && !Casts(categorieId))
    ensures var r := Ordered(b, produitId, produitNom, categorieId, categorieNom);
      r.Some? && CountsAddUp(b) ==> CountsAddUp(r.value) && r.value.commandes == b.commandes + 1
    ensures var r := Ordered(b, produitId, produitNom, categorieId, categorieNom);
      r.Some? && Consistent(b) && Canonical(produitId) && Canonical(categorieId) ==>
        Consistent(r.value)
  {
    BumpChangesOneEntry(b.produits, produitId, produitNom);
    BumpChangesOneEntry(b.categories, categorieId, categorieNom);
    BumpKeepsInvariant(b.produits, produitId, produitNom);
    BumpKeepsInvariant(b.categories, categorieId, categorieNom);
  }

  /** The bucket an order creates is consistent, and its lists hold the two cast ids. */
  lemma FirstOrderConsistent(id: nat, day: int, produitId: Option<string>, produitNom: Option<string>,
                             categorieId: Option<string>, categorieNom: Option<string>)
    requires Casts(produitId) && Casts(categorieId)
    ensures var b := FirstOrder(id, day, produitId, produitNom, categorieId, categorieNom);
      && Consistent(b) && b.commandes == 1 && b.visites == 0
      && |b.produits| == 1 && b.produits[0].key == StoredKey(produitId)
      && |b.categories| == 1 && b.categories[0].key == StoredKey(categorieId)
  {
    var pe := Entry(StoredKey(produitId), produitNom, 1);
    var ce := Entry(StoredKey(categorieId), categorieNom, 1);
    SumSingle(pe);
    SumSingle(ce);
  }

  /** The in-place update of one entry list: the entry naming `key` gains one order, or an
      entry with one order and the cast id is pushed; `None` when that cast fails. */
  method BumpList(es: seq<Entry>, key: Option<string>, nom: Option<string>)
    returns (r: Option<seq<Entry>>)
    ensures r == Bump(es, key, nom)
  {
    var found := EntryIndex(es, key);
    if found.Some? {
      var j := found.value;
      r := Some(es[j := es[j].(commandes := es[j].commandes + 1)]);
    } else if key.None? {
      r := Some(es + [Entry(None, nom, 1)]);
    } else {
      var id := CastObjectId(key.value);
      if id.None? {
        r := None;
      } else {
        r := Some(es + [Entry(id, nom, 1)]);
      }
    }
  }

  method Commande(coll: AnalyticsCollection, produitId: Option<string>, produitNom: Option<string>,
                  categorieId: Option<string>, categorieNom: Option<string>, now: int)
    returns (status: int)
    requires coll.Valid()
    modifies coll
    ensures coll.Valid()
    ensures var after := AfterOrder(old(coll.docs), old(coll.nextId), Today(now),
                                    produitId, produitNom, categorieId, categorieNom);
      && (after.None? ==> status == SERVER_ERROR && coll.docs == old(coll.docs)
                          && coll.nextId == old(coll.nextId))
      && (after.Some? ==> status == OK && coll.docs == after.value
                          && coll.nextId == old(coll.nextId) + (if |coll.docs| > |old(coll.docs)| then 1 else 0))
  {
    var today := Today(now);
    var found := DayIndex(coll.docs, today);
    if found.Some? {
      status := OrderInto(coll, found.value, produitId, produitNom, categorieId, categorieNom);
    } else {
      if !Casts(produitId) || !Casts(categorieId) {
        return SERVER_ERROR;
      }
      coll.docs := coll.docs + [FirstOrder(coll.nextId, today, produitId, produitNom,
                                           categorieId, categorieNom)];
      coll.nextId := coll.nextId + 1;
      status := OK;
    }
  }

  /** The order counted into the stored bucket at `i`: its counter and both lists are updated
      in place and saved, or the save fails with 500 and nothing changes. */
  method OrderInto(coll: AnalyticsCollection, i: nat, produitId: Option<string>,
                   produitNom: Option<string>, categorieId: Option<string>,
                   categorieNom: Option<string>)
    returns (status: int)
    requires coll.Valid() && i < |coll.docs|
    modifies coll
    ensures coll.Valid() && coll.nextId == old(coll.nextId)
    ensures var b := Ordered(old(coll.docs)[i], produitId, produitNom, categorieId, categorieNom);
      && (b.None? ==> status == SERVER_ERROR && coll.docs == old(coll.docs))
      && (b.Some? ==> status == OK && coll.docs == old(coll.docs)[i := b.value])
  {
    var b := coll.docs[i];
    var produits := BumpList(b.produits, produitId, produitNom);
    var categories := BumpList(b.categories, categorieId, categorieNom);
    if produits.None? || categories.None? {
      return SERVER_ERROR;
    }
    b := b.(commandes := b.commandes + 1, produits := produits.value,
            categories := categories.value);
    assert b.id == coll.docs[i].id;
    coll.docs := coll.docs[i := b];
    status := OK;
  }

  // ---------------------------------------------------------------------------
  // GET /dashboard : the buckets of the last 30 days
  // ---------------------------------------------------------------------------

  const CHART_DAYS := 30

  /** The query window: buckets whose day starts no earlier than 30 days before `now`. */
  predicate InWindow(b: Bucket, now: int) {
    b.date * DAY_MS >= now - CHART_DAYS * DAY_MS
  }

  /** `find({ date: { $gte: thirtyDaysAgo } })`. */
  function WindowBuckets(docs: seq<Bucket>, now: int): (r: seq<Bucket>)
    ensures forall i :: 0 <= i < |r| ==> InWindow(r[i], now) && r[i] in docs
    ensures forall b :: b in docs && InWindow(b, now) ==> b in r
  {
    var r := Filter(docs, (b: Bucket) => InWindow(b, now));
    assert forall i :: 0 <= i < |r| ==> r[i] in multiset(docs);
    r
  }

  /** Sort key of `.sort({ date: 1 })`. */
  function DateKey(b: Bucket): seq<int> {
    [b.date]
  }

  /** The fetched buckets: the window, in ascending date order. */
  function Fetched(docs: seq<Bucket>, now: int): (r: seq<Bucket>)
    ensures multiset(r) == multiset(WindowBuckets(docs, now))
  {
    SortBy(WindowBuckets(docs, now), DateKey)
  }

  lemma FetchedAscending(docs: seq<Bucket>, now: int)
    ensures var r := Fetched(docs, now);
      forall i, j :: 0 <= i < j < |r| ==> r[i].date <= r[j].date
  {
    var r := Fetched(docs, now);
    SortBySorted(WindowBuckets(docs, now), DateKey);
    forall i, j | 0 <= i < j < |r|
      ensures r[i].date <= r[j].date
    {
      assert LexLe(DateKey(r[i]), DateKey(r[j]));
      assert DateKey(r[i])[1..] == [];
    }
  }

  /** Each of the last 30 days, today included, lies in the window: a bucket of such a day is
      fetched, and the fetched buckets have one of that day exactly when the collection has. */
  lemma RecentDaysFetched(docs: seq<Bucket>, now: int, day: int)
    requires Today(now) - (CHART_DAYS - 1) <= day
    ensures DayIndex(Fetched(docs, now), day).Some? <==> DayIndex(docs, day).Some?
  {
    var r := Fetched(docs, now);
    var w := WindowBuckets(docs, now);
    RecentDayInWindow(now, day);
    if DayIndex(docs, day).Some? {
      var b := docs[DayIndex(docs, day).value];
      assert b in w;
      assert b in multiset(r);
    }
    if DayIndex(r, day).Some? {
      var b := r[DayIndex(r, day).value];
      assert b in multiset(w);
    }
  }

  /** The window reaches back past the start of the 30th day before today. */
  lemma RecentDayInWindow(now: int, day: int)
    requires Today(now) - (CHART_DAYS - 1) <= day
    ensures day * DAY_MS >= now - CHART_DAYS * DAY_MS
  {
    var t, r := now / 86400000, now % 86400000;
    assert now == t * 86400000 + r && 0 <= r < 86400000;
    assert day * 86400000 >= (t - 29) * 86400000;
  }

  /** One point of the series. */
  datatype Point = Point(date: int, visites: int, commandes: int)

  /** The point of a day: the counters of the first fetched bucket of that day (`find` on
      the fetched list), zeros when there is none. */
  function ChartPoint(fetched: seq<Bucket>, day: int): (p: Point)
    ensures p.date == day
    ensures DayIndex(fetched, day).None? ==> p.visites == 0 && p.commandes == 0
  {
    match DayIndex(fetched, day)
    case Some(i) => Point(day, fetched[i].visites, fetched[i].commandes)
    case None => Point(day, 0, 0)
  }

  /** The dashboard's product or category winner. */
  datatype TopEntry = TopEntry(nom: Option<string>, total: int)

  datatype Dashboard = Dashboard(
    chart: seq<Point>,
    totalVisites: int,
    totalCommandes: int,
    topProduit: TopEntry,
    topCategorie: TopEntry)

  // ---------------------------------------------------------------------------
  // Totals
  // ---------------------------------------------------------------------------

  function TotalVisites(bs: seq<Bucket>): int {
    SumOf(bs, (b: Bucket) => b.visites)
  }

  function TotalCommandes(bs: seq<Bucket>): int {
    SumOf(bs, (b: Bucket) => b.commandes)
  }

  /** The totals are those of every bucket in the window, whatever order they are read in. */
  lemma TotalsOverWindow(docs: seq<Bucket>, now: int)
    ensures TotalVisites(Fetched(docs, now)) == TotalVisites(WindowBuckets(docs, now))
    ensures TotalCommandes(Fetched(docs, now)) == TotalCommandes(WindowBuckets(docs, now))
  {
    SumOfPermutation(Fetched(docs, now), WindowBuckets(docs, now), (b: Bucket) => b.visites);
    SumOfPermutation(Fetched(docs, now), WindowBuckets(docs, now), (b: Bucket) => b.commandes);
  }

  // ---------------------------------------------------------------------------
  // The per-id tally and the top entry
  // ---------------------------------------------------------------------------

  /** A value of the tally map: the name kept and the running total of one id. */
  datatype Tally = Tally(key: Option<string>, nom: Option<string>, total: int)

  /** `map.get(key)`: the tally of that id. The map is kept as its entries in insertion order. */
  function TallyIndex(ts: seq<Tally>, key: Option<string>): (r: Option<nat>)
    ensures r.Some? ==> r.value < |ts| && ts[r.value].key == key
    ensures r.None? ==> forall k :: 0 <= k < |ts| ==> ts[k].key != key
  {
    FindFirst(ts, (t: Tally) => t.key == key)
  }

  /** One step of the `forEach`: an id already in the map gets the entry's count added to its
      total; a new id is inserted at the end with the entry's name and count. */
  function AddEntry(ts: seq<Tally>, e: Entry): seq<Tally> {
    match TallyIndex(ts, e.key)
    case Some(j) => ts[j := ts[j].(total := ts[j].total + e.commandes)]
    case None => ts + [Tally(e.key, e.nom, e.commandes)]
  }

  /** The map after all the entries, in order. */
  function Tallies(es: seq<Entry>): seq<Tally> {
    if es == [] then [] else AddEntry(Tallies(es[..|es| - 1]), es[|es| - 1])
  }

  /** All the entries of a list of lists, in order. */
  function Concat(ls: seq<seq<Entry>>): seq<Entry> {
    if ls == [] then [] else Concat(ls[..|ls| - 1]) + ls[|ls| - 1]
  }

  function ProductLists(bs: seq<Bucket>): (r: seq<seq<Entry>>)
    ensures |r| == |bs| && forall i :: 0 <= i < |bs| ==> r[i] == bs[i].produits
  {
    seq(|bs|, i requires 0 <= i < |bs| => bs[i].produits)
  }

  function CategoryLists(bs: seq<Bucket>): (r: seq<seq<Entry>>)
    ensures |r| == |bs| && forall i :: 0 <= i < |bs| ==> r[i] == bs[i].categories
  {
    seq(|bs|, i requires 0 <= i < |bs| => bs[i].categories)
  }

  /** The position of the first entry naming `key`. */
  function FirstWithKey(es: seq<Entry>, key: Option<string>): (r: Option<nat>)
    ensures r.Some? ==> r.value < |es| && es[r.value].key == key
    ensures r.Some? ==> forall k :: 0 <= k < r.value ==> es[k].key != key
    ensures r.None? ==> forall k :: 0 <= k < |es| ==> es[k].key != key
  {
    FindFirst(es, (e: Entry) => e.key == key)
  }

  /** The total of the counts of the entries naming `key`. */
  function KeyTotal(es: seq<Entry>, key: Option<string>): int {
    SumOf(es, (e: Entry) => if e.key == key then e.commandes else 0)
  }

  lemma FirstWithKeyAppend(es: seq<Entry>, e: Entry, key: Option<string>)
    ensures FirstWithKey(es + [e], key) ==
      if FirstWithKey(es, key).Some? then FirstWithKey(es, key)
      else if e.key == key then Some(|es|) else None
  {
    var r := FirstWithKey(es + [e], key);
    var q := FirstWithKey(es, key);
    assert forall k :: 0 <= k < |es| ==> (es + [e])[k] == es[k];
    if q.Some? {
      assert (es + [e])[q.value].key == key;
      assert r.Some? && !(r.value < q.value) && !(q.value < r.value);
    } else if e.key == key {
      assert (es + [e])[|es|].key == key;
    }
  }

  /** The tally map's meaning: one tally per id that occurs, in the order of first
      occurrence, each with the total of that id's counts and the name of its first entry. */
  ghost predicate TallyMeaning(ts: seq<Tally>, es: seq<Entry>) {
    && KeysDistinct(ts)
    && KeysOccur(ts, es)
    && TotalsMatch(ts, es)
    && NamesMatch(ts, es)
    && Covers(ts, es)
    && FirstSeenOrder(ts, es)
  }

  ghost predicate KeysDistinct(ts: seq<Tally>) {
    forall i, j :: 0 <= i < j < |ts| ==> ts[i].key != ts[j].key
  }

  ghost predicate KeysOccur(ts: seq<Tally>, es: seq<Entry>) {
    forall k :: 0 <= k < |ts| ==> FirstWithKey(es, ts[k].key).Some?
  }

  ghost predicate TotalsMatch(ts: seq<Tally>, es: seq<Entry>) {
    forall k :: 0 <= k < |ts| ==> ts[k].total == KeyTotal(es, ts[k].key)
  }

  ghost predicate NamesMatch(ts: seq<Tally>, es: seq<Entry>)
    requires KeysOccur(ts, es)
  {
    forall k :: 0 <= k < |ts| ==> ts[k].nom == es[FirstWithKey(es, ts[k].key).value].nom
  }

  ghost predicate Covers(ts: seq<Tally>, es: seq<Entry>) {
    forall i :: 0 <= i < |es| ==> TallyIndex(ts, es[i].key).Some?
  }

  ghost predicate FirstSeenOrder(ts: seq<Tally>, es: seq<Entry>)
    requires KeysOccur(ts, es)
  {
    forall i, j :: 0 <= i < j < |ts| ==>
      FirstWithKey(es, ts[i].key).value < FirstWithKey(es, ts[j].key).value
  }

  lemma {:induction false} TalliesMeaning(es: seq<Entry>)
    ensures TallyMeaning(Tallies(es), es)
    decreases |es|
  {
    if es != [] {
      var n := |es| - 1;
      var p, e := es[..n], es[n];
      assert es == p + [e];
      TalliesMeaning(p);
      TalliesAppend(p, e);
      AddEntryMeaning(Tallies(p), p, e);
    }
  }

  /** One step of the fold keeps the meaning. */
  lemma AddEntryMeaning(ts: seq<Tally>, p: seq<Entry>, e: Entry)
    requires TallyMeaning(ts, p)
    ensures TallyMeaning(AddEntry(ts, e), p + [e])
  {
    if TallyIndex(ts, e.key).Some? {
      var j := TallyIndex(ts, e.key).value;
      assert AddEntry(ts, e) == ts[j := ts[j].(total := ts[j].total + e.commandes)];
      ExistingKeysOccur(ts, p, e, j);
      ExistingTotals(ts, p, e, j);
      ExistingCovers(ts, p, e, j);
    } else {
      assert AddEntry(ts, e) == ts + [Tally(e.key, e.nom, e.commandes)];
      NewIsFresh(ts, p, e);
      NewKeysOccur(ts, p, e);
      NewTotals(ts, p, e);
      NewCovers(ts, p, e);
    }
  }

  /** Appending an entry does not move the first occurrence of an id that already occurs. */
  lemma FirstStays(p: seq<Entry>, e: Entry, key: Option<string>)
    requires FirstWithKey(p, key).Some?
    ensures FirstWithKey(p + [e], key) == FirstWithKey(p, key)
    ensures (p + [e])[FirstWithKey(p, key).value] == p[FirstWithKey(p, key).value]
  {
    FirstWithKeyAppend(p, e, key);
  }

  lemma ExistingKeysOccur(ts: seq<Tally>, p: seq<Entry>, e: Entry, j: nat)
    requires KeysDistinct(ts) && KeysOccur(ts, p) && NamesMatch(ts, p) && FirstSeenOrder(ts, p)
    requires j < |ts| && ts[j].key == e.key
    ensures var r := ts[j := ts[j].(total := ts[j].total + e.commandes)];
      && KeysDistinct(r) && KeysOccur(r, p + [e])
      && NamesMatch(r, p + [e]) && FirstSeenOrder(r, p + [e])
  {
    var r := ts[j := ts[j].(total := ts[j].total + e.commandes)];
    forall k | 0 <= k < |r|
      ensures r[k].key == ts[k].key && r[k].nom == ts[k].nom
      ensures FirstWithKey(p + [e], r[k].key) == FirstWithKey(p, ts[k].key)
      ensures (p + [e])[FirstWithKey(p, ts[k].key).value] == p[FirstWithKey(p, ts[k].key).value]
    {
      FirstStays(p, e, ts[k].key);
    }
  }

  lemma ExistingTotals(ts: seq<Tally>, p: seq<Entry>, e: Entry, j: nat)
    requires KeysDistinct(ts) && TotalsMatch(ts, p)
    requires j < |ts| && ts[j].key == e.key
    ensures TotalsMatch(ts[j := ts[j].(total := ts[j].total + e.commandes)], p + [e])
  {
    var r := ts[j := ts[j].(total := ts[j].total + e.commandes)];
    forall k | 0 <= k < |r|
      ensures r[k].total == KeyTotal(p + [e], r[k].key)
    {
      var key := r[k].key;
      SumOfAppend(p, e, (x: Entry) => if x.key == key then x.commandes else 0);
      if k != j {
        assert ts[k].key != ts[j].key;
      }
    }
  }

  lemma ExistingCovers(ts: seq<Tally>, p: seq<Entry>, e: Entry, j: nat)
    requires Covers(ts, p)
    requires j < |ts| && ts[j].key == e.key
    ensures Covers(ts[j := ts[j].(total := ts[j].total + e.commandes)], p + [e])
  {
    var r := ts[j := ts[j].(total := ts[j].total + e.commandes)];
    var es := p + [e];
    forall i | 0 <= i < |es|
      ensures TallyIndex(r, es[i].key).Some?
    {
      if i < |p| {
        assert es[i] == p[i];
        assert r[TallyIndex(ts, p[i].key).value].key == es[i].key;
      } else {
        assert r[j].key == es[i].key;
      }
    }
  }

  /** An id missing from the map has not occurred yet. */
  lemma NewIsFresh(ts: seq<Tally>, p: seq<Entry>, e: Entry)
    requires Covers(ts, p) && TallyIndex(ts, e.key).None?
    ensures FirstWithKey(p, e.key).None?
  {
  }

  lemma NewKeysOccur(ts: seq<Tally>, p: seq<Entry>, e: Entry)
    requires KeysDistinct(ts) && KeysOccur(ts, p) && NamesMatch(ts, p) && FirstSeenOrder(ts, p)
    requires TallyIndex(ts, e.key).None? && FirstWithKey(p, e.key).None?
    ensures var r := ts + [Tally(e.key, e.nom, e.commandes)];
      && KeysDistinct(r) && KeysOccur(r, p + [e])
      && NamesMatch(r, p + [e]) && FirstSeenOrder(r, p + [e])
  {
    NewKeysStay(ts, p, e);
    NewNamesOrder(ts, p, e);
  }

  lemma NewKeysStay(ts: seq<Tally>, p: seq<Entry>, e: Entry)
    requires KeysDistinct(ts) && KeysOccur(ts, p)
    requires TallyIndex(ts, e.key).None? && FirstWithKey(p, e.key).None?
    ensures var r := ts + [Tally(e.key, e.nom, e.commandes)];
      && KeysDistinct(r) && KeysOccur(r, p + [e])
      && (forall k :: 0 <= k < |ts| ==> FirstWithKey(p + [e], r[k].key) == FirstWithKey(p, ts[k].key))
      && FirstWithKey(p + [e], e.key) == Some(|p|)
  {
    var r := ts + [Tally(e.key, e.nom, e.commandes)];
    forall k | 0 <= k < |ts|
      ensures r[k] == ts[k]
      ensures FirstWithKey(p + [e], r[k].key) == FirstWithKey(p, ts[k].key)
    {
      FirstStays(p, e, ts[k].key);
    }
    FirstWithKeyAppend(p, e, e.key);
    assert r[|ts|].key == e.key;
  }

  lemma NewNamesOrder(ts: seq<Tally>, p: seq<Entry>, e: Entry)
    requires KeysOccur(ts, p) && NamesMatch(ts, p) && FirstSeenOrder(ts, p)
    requires var r := ts + [Tally(e.key, e.nom, e.commandes)];
      && KeysOccur(r, p + [e])
      && (forall k :: 0 <= k < |ts| ==> FirstWithKey(p + [e], r[k].key) == FirstWithKey(p, ts[k].key))
      && FirstWithKey(p + [e], e.key) == Some(|p|)
    ensures var r := ts + [Tally(e.key, e.nom, e.commandes)];
      NamesMatch(r, p + [e]) && FirstSeenOrder(r, p + [e])
  {
    var r := ts + [Tally(e.key, e.nom, e.commandes)];
    var q := p + [e];
    forall k | 0 <= k < |r|
      ensures r[k].nom == q[FirstWithKey(q, r[k].key).value].nom
    {
      if k < |ts| {
        assert r[k] == ts[k];
        assert q[FirstWithKey(p, ts[k].key).value] == p[FirstWithKey(p, ts[k].key).value];
      } else {
        assert q[|p|] == e;
      }
    }
    forall i, j | 0 <= i < j < |r|
      ensures FirstWithKey(q, r[i].key).value < FirstWithKey(q, r[j].key).value
    {
      assert FirstWithKey(q, r[i].key) == FirstWithKey(p, ts[i].key);
      if j == |ts| {
        assert r[j].key == e.key;
      }
    }
  }

  lemma NewTotals(ts: seq<Tally>, p: seq<Entry>, e: Entry)
    requires TotalsMatch(ts, p)
    requires TallyIndex(ts, e.key).None? && FirstWithKey(p, e.key).None?
    ensures TotalsMatch(ts + [Tally(e.key, e.nom, e.commandes)], p + [e])
  {
    var r := ts + [Tally(e.key, e.nom, e.commandes)];
    forall k | 0 <= k < |r|
      ensures r[k].total == KeyTotal(p + [e], r[k].key)
    {
      var key := r[k].key;
      SumOfAppend(p, e, (x: Entry) => if x.key == key then x.commandes else 0);
      if k == |ts| {
        KeyTotalAbsent(p, e.key);
      }
    }
  }

  lemma NewCovers(ts: seq<Tally>, p: seq<Entry>, e: Entry)
    requires Covers(ts, p)
    ensures Covers(ts + [Tally(e.key, e.nom, e.commandes)], p + [e])
  {
    var r := ts + [Tally(e.key, e.nom, e.commandes)];
    var es := p + [e];
    forall i | 0 <= i < |es|
      ensures TallyIndex(r, es[i].key).Some?
    {
      if i < |p| {
        assert es[i] == p[i];
        assert r[TallyIndex(ts, p[i].key).value].key == es[i].key;
      } else {
        assert r[|ts|].key == es[i].key;
      }
    }
  }

  /** An id that never occurs has total 0. */
  lemma {:induction false} KeyTotalAbsent(es: seq<Entry>, key: Option<string>)
    requires forall k :: 0 <= k < |es| ==> es[k].key != key
    ensures KeyTotal(es, key) == 0
    decreases |es|
  {
    if es != [] {
      KeyTotalAbsent(es[..|es| - 1], key);
    }
  }

  /** Sort key of `.sort((a, b) => b.total - a.total)`. */
  function ByTotalDesc(t: Tally): seq<int> {
    [-t.total]
  }

  /** The first tally with the largest total. */
  function FirstMax(ts: seq<Tally>): (r: nat)
    requires ts != []
    ensures r < |ts|
    ensures forall j :: 0 <= j < |ts| ==> ts[j].total <= ts[r].total
    ensures forall j :: 0 <= j < r ==> ts[j].total < ts[r].total
  {
    if |ts| == 1 then 0
    else
      var i := FirstMax(ts[..|ts| - 1]);
      if ts[|ts| - 1].total > ts[i].total then |ts| - 1 else i
  }

  /** The stable sort by descending total puts the first tally with the largest total in
      front: that is where the tie-break of the top entry comes from. */
  lemma {:induction false} SortHeadIsFirstMax(ts: seq<Tally>)
    requires ts != []
    ensures SortBy(ts, ByTotalDesc)[0] == ts[FirstMax(ts)]
    decreases |ts|
  {
    var n := |ts| - 1;
    var x := ts[n];
    if n == 0 {
      assert SortBy(ts, ByTotalDesc) == Insert(x, SortBy([], ByTotalDesc), ByTotalDesc);
    } else {
      var p := ts[..n];
      SortHeadIsFirstMax(p);
      var t := SortBy(p, ByTotalDesc);
      var i := FirstMax(p);
      assert FirstMax(ts) == if x.total > p[i].total then n else i;
      assert SortBy(ts, ByTotalDesc) == Insert(x, t, ByTotalDesc);
      var h := t[0];
      assert h == p[i];
      TotalOrder(h, x);
      if x.total > h.total {
        assert Insert(x, t, ByTotalDesc) == [x] + t;
      } else {
        assert Insert(x, t, ByTotalDesc) == [h] + Insert(x, t[1..], ByTotalDesc);
      }
    }
  }

  lemma TotalOrder(a: Tally, b: Tally)
    ensures LexLe(ByTotalDesc(a), ByTotalDesc(b)) <==> a.total >= b.total
  {
    assert ByTotalDesc(a)[1..] == [] && ByTotalDesc(b)[1..] == [];
  }

  /** `Array.from(map.values()).sort(...)[0] || sentinel`. */
  function Top(ts: seq<Tally>, sentinel: string): TopEntry {
    if ts == [] then TopEntry(Some(sentinel), 0)
    else
      var h := SortBy(ts, ByTotalDesc)[0];
      TopEntry(h.nom, h.total)
  }

  /** The top entry over a list of entries: the sentinel with total 0 when there is none;
      otherwise the id with the largest total (no id has more), ties going to the id that
      occurs first, with the name of that id's first entry. */
  lemma TopMeaning(es: seq<Entry>, sentinel: string)
    ensures es == [] ==> Top(Tallies(es), sentinel) == TopEntry(Some(sentinel), 0)
    ensures es != [] ==>
      var ts := Tallies(es);
      ts != [] &&
      var key := ts[FirstMax(ts)].key;
      var first := FirstWithKey(es, key);
      && first.Some?
      && Top(ts, sentinel) == TopEntry(es[first.value].nom, KeyTotal(es, key))
      && (forall i :: 0 <= i < |es| ==> KeyTotal(es, es[i].key) <= KeyTotal(es, key))
      && (forall i :: 0 <= i < |es| && KeyTotal(es, es[i].key) == KeyTotal(es, key) ==>
            first.value <= FirstWithKey(es, es[i].key).value)
  {
    if es != [] {
      var ts := Tallies(es);
      TalliesMeaning(es);
      assert TallyIndex(ts, es[0].key).Some?;
      var m := FirstMax(ts);
      SortHeadIsFirstMax(ts);
      forall i | 0 <= i < |es|
        ensures KeyTotal(es, es[i].key) <= KeyTotal(es, ts[m].key)
        ensures KeyTotal(es, es[i].key) == KeyTotal(es, ts[m].key) ==>
          FirstWithKey(es, ts[m].key).value <= FirstWithKey(es, es[i].key).value
      {
        var k := TallyIndex(ts, es[i].key).value;
        assert ts[k].key == es[i].key;
        if k < m {
          assert ts[k].total < ts[m].total;
        } else if m < k {
          assert FirstWithKey(es, ts[m].key).value < FirstWithKey(es, ts[k].key).value;
        }
      }
    }
  }

  // ---------------------------------------------------------------------------
  // The route
  // ---------------------------------------------------------------------------

  lemma TalliesAppend(es: seq<Entry>, e: Entry)
    ensures Tallies(es + [e]) == AddEntry(Tallies(es), e)
  {
    assert (es + [e])[..|es|] == es;
  }

  lemma ConcatAppend(ls: seq<seq<Entry>>, d: nat)
    requires d < |ls|
    ensures Concat(ls[..d + 1]) == Concat(ls[..d]) + ls[d]
  {
    assert ls[..d + 1][..d] == ls[..d];
  }

  /** The body of the inner `forEach`: read the id's tally or start one at 0, add the entry's
      count, store it back. */
  method TallyStep(ts: seq<Tally>, e: Entry) returns (r: seq<Tally>)
    ensures r == AddEntry(ts, e)
  {
    var found := TallyIndex(ts, e.key);
    if found.Some? {
      var j := found.value;
      r := ts[j := ts[j].(total := ts[j].total + e.commandes)];
    } else {
      r := ts + [Tally(e.key, e.nom, e.commandes)];
    }
  }

  /** The two nested `forEach` loops filling the map. */
  method TallyLists(lists: seq<seq<Entry>>) returns (ts: seq<Tally>)
    ensures ts == Tallies(Concat(lists))
  {
    ts := [];
    var d := 0;
    while d < |lists|
      invariant 0 <= d <= |lists|
      invariant ts == Tallies(Concat(lists[..d]))
    {
      ts := TallyList(ts, Concat(lists[..d]), lists[d]);
      ConcatAppend(lists, d);
      d := d + 1;
    }
    assert lists[..|lists|] == lists;
  }

  /** The inner `forEach` over one bucket's list. */
  method TallyList(ts: seq<Tally>, ghost before: seq<Entry>, entries: seq<Entry>)
    returns (r: seq<Tally>)
    requires ts == Tallies(before)
    ensures r == Tallies(before + entries)
  {
    r := ts;
    var k := 0;
    assert before + entries[..0] == before;
    while k < |entries|
      invariant 0 <= k <= |entries|
      invariant r == Tallies(before + entries[..k])
    {
      var e := entries[k];
      r := TallyStep(r, e);
      assert before + entries[..k + 1] == (before + entries[..k]) + [e] by {
        assert entries[..k + 1] == entries[..k] + [e];
      }
      TalliesAppend(before + entries[..k], e);
      k := k + 1;
    }
    assert entries[..k] == entries;
  }

  /** The `for` loop building the series, from 29 days ago up to today. */
  method BuildChart(fetched: seq<Bucket>, today: int) returns (chart: seq<Point>)
    ensures |chart| == CHART_DAYS
    ensures forall k :: 0 <= k < CHART_DAYS ==>
              chart[k] == ChartPoint(fetched, today - (CHART_DAYS - 1) + k)
  {
    chart := [];
    var i := CHART_DAYS - 1;
    while i >= 0
      invariant -1 <= i <= CHART_DAYS - 1
      invariant |chart| == CHART_DAYS - 1 - i
      invariant forall k :: 0 <= k < |chart| ==>
                  chart[k] == ChartPoint(fetched, today - (CHART_DAYS - 1) + k)
    {
      var day := today - i;
      var dayData := DayIndex(fetched, day);
      var point := if dayData.Some? then Point(day, fetched[dayData.value].visites,
                                                fetched[dayData.value].commandes)
                   else Point(day, 0, 0);
      assert day == today - (CHART_DAYS - 1) + |chart|;
      assert point == ChartPoint(fetched, day);
      chart := chart + [point];
      i := i - 1;
    }
  }

  method GetDashboard(coll: AnalyticsCollection, now: int) returns (d: Dashboard)
    ensures var fetched := Fetched(coll.docs, now);
      && |d.chart| == CHART_DAYS
      && (forall k :: 0 <= k < CHART_DAYS ==>
            d.chart[k] == ChartPoint(fetched, Today(now) - (CHART_DAYS - 1) + k))
      && d.totalVisites == TotalVisites(fetched)
      && d.totalCommandes == TotalCommandes(fetched)
      && d.topProduit == Top(Tallies(Concat(ProductLists(fetched))), "Aucun")
      && d.topCategorie == Top(Tallies(Concat(CategoryLists(fetched))), "Aucune")
  {
    var fetched := Fetched(coll.docs, now);
    var chart := BuildChart(fetched, Today(now));
    var produits := TallyLists(ProductLists(fetched));
    var categories := TallyLists(CategoryLists(fetched));
    d := Dashboard(chart, TotalVisites(fetched), TotalCommandes(fetched),
                   Top(produits, "Aucun"), Top(categories, "Aucune"));
  }
}
