/** The Promotion schema (models/Promotion.js): the two promotion types, the type-dependent
    `categorie` requirement, the defaults, and the two read-time virtuals `estActive` and
    `tempsRestant`. Instants are integer milliseconds. */
module PromotionModel {
  import opened Common
  import opened Sorting

  /** Seconds each prize is shown when the request gives no duration. */
  const DEFAULT_DUREE_AFFICHAGE := 10

  datatype PromotionType = StockLimite | Tombola

  /** The `type` enum: only the two spellings below are accepted. */
  function ParseType(s: string): (r: Option<PromotionType>)
    ensures r == Some(StockLimite) <==> s == "stock-limite"
    ensures r == Some(Tombola) <==> s == "tombola"
    ensures r.None? <==> s != "stock-limite" && s != "tombola"
  {
    if s == "stock-limite" then Some(StockLimite)
    else if s == "tombola" then Some(Tombola)
    else None
  }

  /** A stored promotion. `categorie` is the referenced category id, `gains` the prize list,
      `createdAt` the creation instant set by the schema's timestamps. */
  datatype Promotion = Promotion(
    id: nat,
    kind: PromotionType,
    nom: string,
    actif: bool,
    dateDebut: int,
    dateFin: int,
    categorie: Option<nat>,
    gains: seq<string>,
    dureeAffichage: int,
    createdAt: int)

  /** What the schema validator checks on save: a name that is non-empty once the `trim`
      setter has run, and a category whenever the type is stock-limite. */
  predicate SchemaValid(p: Promotion) {
    p.nom != "" && (p.kind == StockLimite ==> p.categorie.Some?)
  }

  /** The controllers' convention on top of the schema: a stock-limite promotion carries a
      category and no prizes, a tombola carries no category. */
  predicate TypeGated(p: Promotion) {
    && (p.kind == StockLimite ==> p.categorie.Some? && p.gains == [])
    && (p.kind == Tombola ==> p.categorie.None?)
  }

  /** The `trim` setter applied to each prize. */
  function TrimAll(gains: seq<string>): (r: seq<string>)
    ensures |r| == |gains|
    ensures forall i :: 0 <= i < |gains| ==> r[i] == Trim(gains[i])
  {
    if gains == [] then [] else [Trim(gains[0])] + TrimAll(gains[1..])
  }

  /** The `estActive` virtual: the flag is set and `now` lies in the window, both ends included. */
  predicate EstActive(p: Promotion, now: int) {
    p.actif && p.dateDebut <= now && p.dateFin >= now
  }

  /** Both ends of the window count as active; one millisecond outside does not. */
  lemma EstActiveInclusive(p: Promotion)
    requires p.actif && p.dateDebut <= p.dateFin
    ensures EstActive(p, p.dateDebut) && EstActive(p, p.dateFin)
    ensures !EstActive(p, p.dateDebut - 1) && !EstActive(p, p.dateFin + 1)
  {
  }

  /** Nothing stops a window whose start lies after its end; such a promotion is never active. */
  lemma InvertedWindowNeverActive(p: Promotion, now: int)
    requires p.dateDebut > p.dateFin
    ensures !EstActive(p, now)
  {
  }

  /** The `tempsRestant` virtual's value. */
  datatype Countdown = Countdown(jours: int, heures: int, minutes: int, secondes: int)

  /** The `tempsRestant` virtual: null once the end is reached, otherwise the remaining
      milliseconds cut into whole days, hours, minutes and seconds (floor division; the
      difference is positive there, so floor and truncation agree). */
  function TempsRestant(p: Promotion, now: int): (r: Option<Countdown>)
    ensures r.None? <==> p.dateFin - now <= 0
    ensures r.Some? ==> 0 <= r.value.jours
    ensures r.Some? ==> 0 <= r.value.heures < 24 && 0 <= r.value.minutes < 60
    ensures r.Some? ==> 0 <= r.value.secondes < 60
  {
    var diff := p.dateFin - now;
    if diff <= 0 then None
    else
      Some(Countdown(
        diff / DAY_MS,
        (diff % DAY_MS) / HOUR_MS,
        (diff % HOUR_MS) / MINUTE_MS,
        (diff % MINUTE_MS) / SECOND_MS))
  }

  /** Euclidean division is unique: a quotient/remainder split with the remainder in range
      is the one `/` and `%` compute. */
  lemma {:induction false} DivisionUnique(n: int, d: int, q: int, r: int)
    requires 0 < d && n == d * q + r && 0 <= r < d
    ensures n / d == q && n % d == r
  {
    var q', r' := n / d, n % d;
    assert d * (q - q') == r' - r;
    if q > q' {
      MulAtLeast(d, q - q');
    } else if q < q' {
      MulAtLeast(d, q' - q);
    }
  }

  lemma {:induction false} MulAtLeast(d: int, k: int)
    requires 0 < d && 1 <= k
    ensures d * k >= d
    decreases k
  {
    if k > 1 {
      MulAtLeast(d, k - 1);
    }
  }

  /** The countdown loses only the sub-second part: putting its components back together gives
      the remaining time in whole seconds. */
  lemma {:induction false} CountdownReconstruction(p: Promotion, now: int)
    requires TempsRestant(p, now).Some?
    ensures var c := TempsRestant(p, now).value;
      c.jours * 86400 + c.heures * 3600 + c.minutes * 60 + c.secondes
        == (p.dateFin - now) / SECOND_MS
  {
    var d := p.dateFin - now;
    var j, r1 := d / DAY_MS, d % DAY_MS;
    var h, r2 := r1 / HOUR_MS, r1 % HOUR_MS;
    DivisionUnique(d, HOUR_MS, 24 * j + h, r2);
    var m, r3 := r2 / MINUTE_MS, r2 % MINUTE_MS;
    DivisionUnique(d, MINUTE_MS, 24 * 60 * j + 60 * h + m, r3);
    var s, r4 := r3 / SECOND_MS, r3 % SECOND_MS;
    DivisionUnique(d, SECOND_MS, j * 86400 + h * 3600 + m * 60 + s, r4);
  }

  /** 90 061 seconds are one day, one hour, one minute and one second; less than one second
      left still gives an all-zero countdown, not null. */
  lemma CountdownExamples(p: Promotion, now: int)
    ensures p.dateFin - now == 90_061_000 ==> TempsRestant(p, now) == Some(Countdown(1, 1, 1, 1))
    ensures 1 <= p.dateFin - now <= 999 ==> TempsRestant(p, now) == Some(Countdown(0, 0, 0, 0))
    ensures p.dateFin - now < 0 ==> TempsRestant(p, now) == None
  {
  }

  // ---------------------------------------------------------------------------
  // The collection
  // ---------------------------------------------------------------------------

  /** Sort key of `.sort({ createdAt: -1 })`. */
  function NewestFirst(p: Promotion): seq<int> {
    [-p.createdAt]
  }

  /** A sequence sorted by NewestFirst has non-increasing creation instants. */
  lemma NewestFirstSorted(s: seq<Promotion>)
    requires SortedBy(s, NewestFirst)
    ensures forall i, j :: 0 <= i < j < |s| ==> s[i].createdAt >= s[j].createdAt
  {
    forall i, j | 0 <= i < j < |s|
      ensures s[i].createdAt >= s[j].createdAt
    {
      assert LexLe(NewestFirst(s[i]), NewestFirst(s[j]));
      assert NewestFirst(s[i])[1..] == [];
    }
  }

  /** The promotion with the given id (`findById`). */
  function IndexOf(docs: seq<Promotion>, id: nat): (r: Option<nat>)
    ensures r.Some? ==> r.value < |docs| && docs[r.value].id == id
    ensures r.None? ==> forall k :: 0 <= k < |docs| ==> docs[k].id != id
  {
    FindFirst(docs, (p: Promotion) => p.id == id)
  }

  predicate UniqueIds(docs: seq<Promotion>) {
    forall i, j :: 0 <= i < j < |docs| ==> docs[i].id != docs[j].id
  }

  /** What every stored promotion satisfies: it passed the validator and follows the type
      gating of the admin routes. */
  predicate AllStored(docs: seq<Promotion>, nextId: nat) {
    forall i :: 0 <= i < |docs| ==> docs[i].id < nextId && SchemaValid(docs[i]) && TypeGated(docs[i])
  }

  /** Appending a valid, gated promotion under a fresh id keeps the collection invariant. */
  lemma StoredAppend(docs: seq<Promotion>, nextId: nat, p: Promotion)
    requires UniqueIds(docs) && AllStored(docs, nextId)
    requires p.id == nextId && SchemaValid(p) && TypeGated(p)
    ensures UniqueIds(docs + [p]) && AllStored(docs + [p], nextId + 1)
  {
  }

  /** Replacing a promotion by a valid, gated one with the same id keeps the invariant. */
  lemma StoredReplace(docs: seq<Promotion>, nextId: nat, i: nat, p: Promotion)
    requires UniqueIds(docs) && AllStored(docs, nextId) && i < |docs|
    requires p.id == docs[i].id && SchemaValid(p) && TypeGated(p)
    ensures UniqueIds(docs[i := p]) && AllStored(docs[i := p], nextId)
  {
  }

  /** Removing a promotion keeps the invariant. */
  lemma StoredRemove(docs: seq<Promotion>, nextId: nat, i: nat)
    requires UniqueIds(docs) && AllStored(docs, nextId) && i < |docs|
    ensures UniqueIds(RemoveAt(docs, i)) && AllStored(RemoveAt(docs, i), nextId)
  {
  }

  /** The `promotions` collection. */
  class PromotionCollection {
    var docs: seq<Promotion>
    var nextId: nat

    ghost predicate Valid()
      reads this
    {
      UniqueIds(docs) && AllStored(docs, nextId)
    }

    constructor ()
      ensures Valid() && docs == [] && nextId == 0
    {
      docs := [];
      nextId := 0;
    }
  }
}
