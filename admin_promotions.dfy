/** The admin promotion routes (controllers/adminPromotions.js): listing, lookup, creation with
    its validation ladder and type-gated fields, field-by-field update, delete and the `actif`
    toggle. The category a stock-limite promotion names is looked up in the category
    collection. Request-body fields are `Option`s (`None` is `undefined`). A date sent to the creation
    route keeps the value sent beside the millisecond count `new Date` turns it into; the
    update route only needs the count. */
module AdminPromotions {
  import opened Common
  import opened Sorting
  import opened PromotionModel
  import CategoryModel

  // ---------------------------------------------------------------------------
  // GET / and GET /:id
  // ---------------------------------------------------------------------------

  /** The listing: every promotion, newest first. */
  function List(docs: seq<Promotion>): (r: seq<Promotion>)
    ensures multiset(r) == multiset(docs)
  {
    SortBy(docs, NewestFirst)
  }

  lemma ListNewestFirst(docs: seq<Promotion>)
    ensures var r := List(docs);
      forall i, j :: 0 <= i < j < |r| ==> r[i].createdAt >= r[j].createdAt
  {
    SortBySorted(docs, NewestFirst);
    NewestFirstSorted(List(docs));
  }

  /** The lookup: 404 for an unknown id, otherwise the stored promotion. */
  function Get(docs: seq<Promotion>, id: nat): (reply: Reply<Promotion>)
    ensures reply.status == NOT_FOUND <==> forall k :: 0 <= k < |docs| ==> docs[k].id != id
    ensures reply.status != NOT_FOUND ==>
      reply.status == OK && reply.record.Some? && reply.record.value in docs
      && reply.record.value.id == id
  {
    match IndexOf(docs, id)
    case None => Reply(NOT_FOUND, None)
    case Some(i) => Reply(OK, Some(docs[i]))
  }

  // ---------------------------------------------------------------------------
  // POST / : creation
  // ---------------------------------------------------------------------------

  /** A date as the body sends it: a number of milliseconds, or a text together with the
      instant `ms` that `new Date` reads from it. */
  datatype DateValue = Millis(ms: int) | DateText(text: string, ms: int)

  /** `!date` is false: a non-zero number, or a non-empty text. The test is on the value sent,
      so the number 0 is refused while a text naming the same instant, the epoch, passes. */
  predicate TruthyDate(d: Option<DateValue>) {
    d.Some? && match d.value
               case Millis(ms) => ms != 0
               case DateText(text, _) => text != ""
  }

  /** The epoch sent as a number is refused, sent as a text it is accepted. */
  lemma EpochTruthiness()
    ensures !TruthyDate(Some(Millis(0)))
    ensures TruthyDate(Some(DateText("1970-01-01T00:00:00.000Z", 0)))
    ensures forall t :: TruthyDate(Some(DateText(t, 0))) <==> t != ""
  {
  }

  /** The first check: type, name and both dates must be truthy. */
  predicate FieldsPresent(kind: Option<string>, nom: Option<string>,
                          dateDebut: Option<DateValue>, dateFin: Option<DateValue>) {
    Truthy(kind) && Truthy(nom) && TruthyDate(dateDebut) && TruthyDate(dateFin)
  }

  /** The route's own 400 answers: a missing field, a stock-limite without a category, or a
      tombola without prizes. */
  predicate Incomplete(kind: Option<string>, nom: Option<string>, dateDebut: Option<DateValue>,
                       dateFin: Option<DateValue>, categorie: Option<nat>, gains: Option<seq<string>>) {
    || !FieldsPresent(kind, nom, dateDebut, dateFin)
    || (kind.value == "stock-limite" && categorie.None?)
    || (kind.value == "tombola" && (gains.None? || gains.value == []))
  }

  /** The document `Promotion.create` builds once the route's checks have passed: the category
      is kept only for stock-limite, the prizes (each trimmed) only for tombola, a falsy
      duration becomes 10, and the promotion starts active. */
  function NewPromotion(id: nat, kind: PromotionType, nom: string, dateDebut: int, dateFin: int,
                        categorie: Option<nat>, gains: Option<seq<string>>,
                        dureeAffichage: Option<int>, now: int): (p: Promotion)
    ensures p.id == id && p.kind == kind && p.nom == Trim(nom) && p.actif
    ensures p.dateDebut == dateDebut && p.dateFin == dateFin && p.createdAt == now
    ensures p.categorie == (if kind == StockLimite then categorie else None)
    ensures kind == Tombola && gains.Some? ==> p.gains == TrimAll(gains.value)
    ensures kind == StockLimite || gains.None? ==> p.gains == []
    ensures p.dureeAffichage == (if TruthyInt(dureeAffichage) then dureeAffichage.value
                                 else DEFAULT_DUREE_AFFICHAGE)
  {
    Promotion(id, kind, Trim(nom), true, dateDebut, dateFin,
              if kind == StockLimite then categorie else None,
              if kind == Tombola && gains.Some? then TrimAll(gains.value) else [],
              OrInt(dureeAffichage, DEFAULT_DUREE_AFFICHAGE), now)
  }

  /** A promotion built from a request the route accepted follows the type gating. */
  lemma NewPromotionGated(id: nat, kind: PromotionType, nom: string, dateDebut: int,
                          dateFin: int, categorie: Option<nat>, gains: Option<seq<string>>,
                          dureeAffichage: Option<int>, now: int)
    requires kind == StockLimite ==> categorie.Some?
    ensures TypeGated(NewPromotion(id, kind, nom, dateDebut, dateFin, categorie, gains,
                                   dureeAffichage, now))
    ensures var p := NewPromotion(id, kind, nom, dateDebut, dateFin, categorie, gains,
                                  dureeAffichage, now);
      SchemaValid(p) <==> Trim(nom) != ""
  {
  }

  method Create(coll: PromotionCollection, categories: CategoryModel.CategoryCollection,
                kind: Option<string>, nom: Option<string>, dateDebut: Option<DateValue>,
                dateFin: Option<DateValue>, categorie: Option<nat>, gains: Option<seq<string>>,
                dureeAffichage: Option<int>, now: int)
    returns (reply: Reply<Promotion>)
    requires coll.Valid()
    modifies coll
    ensures coll.Valid()
    ensures reply.status == BAD_REQUEST <==>
      Incomplete(kind, nom, dateDebut, dateFin, categorie, gains)
    ensures reply.status == NOT_FOUND <==>
      && !Incomplete(kind, nom, dateDebut, dateFin, categorie, gains)
      && kind.value == "stock-limite"
      && CategoryModel.IndexOf(categories.docs, categorie.value).None?
    ensures reply.status == SERVER_ERROR <==>
      && !Incomplete(kind, nom, dateDebut, dateFin, categorie, gains)
      && (kind.value == "stock-limite" ==>
            CategoryModel.IndexOf(categories.docs, categorie.value).Some?)
      && (ParseType(kind.value).None? || Trim(nom.value) == "")
    ensures reply.status == CREATED ==>
      var p := NewPromotion(old(coll.nextId), ParseType(kind.value).value, nom.value,
                            dateDebut.value.ms, dateFin.value.ms, categorie, gains,
                            dureeAffichage, now);
      && reply.record == Some(p)
      && coll.docs == old(coll.docs) + [p] && coll.nextId == old(coll.nextId) + 1
    ensures reply.status != CREATED ==>
      reply.status in {BAD_REQUEST, NOT_FOUND, SERVER_ERROR} && reply.record.None?
      && coll.docs == old(coll.docs) && coll.nextId == old(coll.nextId)
  {
    if !Truthy(kind) || !Truthy(nom) || !TruthyDate(dateDebut) || !TruthyDate(dateFin) {
      return Reply(BAD_REQUEST, None);
    }
    if kind.value == "stock-limite" && categorie.None? {
      return Reply(BAD_REQUEST, None);
    }
    if kind.value == "tombola" && (gains.None? || |gains.value| == 0) {
      return Reply(BAD_REQUEST, None);
    }
    if kind.value == "stock-limite" {
      var found := CategoryModel.IndexOf(categories.docs, categorie.value);
      if found.None? {
        return Reply(NOT_FOUND, None);
      }
    }
    reply := Insert(coll, kind.value, nom.value, dateDebut.value.ms, dateFin.value.ms, categorie,
                    gains, dureeAffichage, now);
  }

  /** `Promotion.create` once the route's own checks have passed: the enum check and the
      validator answer 500, otherwise the new promotion is appended. */
  method Insert(coll: PromotionCollection, kind: string, nom: string, dateDebut: int,
                dateFin: int, categorie: Option<nat>, gains: Option<seq<string>>,
                dureeAffichage: Option<int>, now: int)
    returns (reply: Reply<Promotion>)
    requires coll.Valid() && (kind == "stock-limite" ==> categorie.Some?)
    modifies coll
    ensures coll.Valid()
    ensures reply.status == CREATED <==> ParseType(kind).Some? && Trim(nom) != ""
    ensures reply.status == CREATED ==>
      var p := NewPromotion(old(coll.nextId), ParseType(kind).value, nom, dateDebut, dateFin,
                            categorie, gains, dureeAffichage, now);
      && reply.record == Some(p)
      && coll.docs == old(coll.docs) + [p] && coll.nextId == old(coll.nextId) + 1
    ensures reply.status != CREATED ==>
      reply == Reply(SERVER_ERROR, None)
      && coll.docs == old(coll.docs) && coll.nextId == old(coll.nextId)
  {
    var t := ParseType(kind);
    if t.None? {
      return Reply(SERVER_ERROR, None);
    }
    var p := NewPromotion(coll.nextId, t.value, nom, dateDebut, dateFin,
                          categorie, gains, dureeAffichage, now);
    NewPromotionGated(coll.nextId, t.value, nom, dateDebut, dateFin,
                      categorie, gains, dureeAffichage, now);
    if !SchemaValid(p) {
      return Reply(SERVER_ERROR, None);
    }
    StoredAppend(coll.docs, coll.nextId, p);
    coll.docs := coll.docs + [p];
    coll.nextId := coll.nextId + 1;
    reply := Reply(CREATED, Some(p));
  }

  /** The route never compares the two dates: any window, even one ending before it starts, is
      accepted, and a duration of 0 is replaced by 10. */
  lemma CreateIgnoresDateOrder(id: nat, nom: string, dateDebut: int, dateFin: int,
                               gains: seq<string>, now: int)
    requires dateDebut > dateFin && Trim(nom) != ""
    ensures var p := NewPromotion(id, Tombola, nom, dateDebut, dateFin, None, Some(gains),
                                  Some(0), now);
      SchemaValid(p) && TypeGated(p) && p.dureeAffichage == DEFAULT_DUREE_AFFICHAGE
      && forall t :: !EstActive(p, t)
  {
    var p := NewPromotion(id, Tombola, nom, dateDebut, dateFin, None, Some(gains), Some(0), now);
    forall t
      ensures !EstActive(p, t)
    {
      InvertedWindowNeverActive(p, t);
    }
  }

  // ---------------------------------------------------------------------------
  // PUT /:id : update
  // ---------------------------------------------------------------------------

  /** The update applied to a loaded promotion: each supplied field is assigned (the name and
      the prizes through their `trim` setters), the prizes only on a tombola; the type, the
      category, the id and the creation instant never change. */
  function Updated(p: Promotion, nom: Option<string>, dateDebut: Option<int>,
                   dateFin: Option<int>, actif: Option<bool>, gains: Option<seq<string>>,
                   dureeAffichage: Option<int>): (q: Promotion)
    ensures q.id == p.id && q.kind == p.kind && q.categorie == p.categorie
    ensures q.createdAt == p.createdAt
    ensures q.nom == (if nom.Some? then Trim(nom.value) else p.nom)
    ensures q.dateDebut == (if dateDebut.Some? then dateDebut.value else p.dateDebut)
    ensures q.dateFin == (if dateFin.Some? then dateFin.value else p.dateFin)
    ensures q.actif == (if actif.Some? then actif.value else p.actif)
    ensures q.gains == (if gains.Some? && p.kind == Tombola then TrimAll(gains.value) else p.gains)
    ensures q.dureeAffichage == (if dureeAffichage.Some? then dureeAffichage.value
                                 else p.dureeAffichage)
  {
    Promotion(
      p.id, p.kind,
      if nom.Some? then Trim(nom.value) else p.nom,
      if actif.Some? then actif.value else p.actif,
      if dateDebut.Some? then dateDebut.value else p.dateDebut,
      if dateFin.Some? then dateFin.value else p.dateFin,
      p.categorie,
      if gains.Some? && p.kind == Tombola then TrimAll(gains.value) else p.gains,
      if dureeAffichage.Some? then dureeAffichage.value else p.dureeAffichage,
      p.createdAt)
  }

  /** An update keeps the type gating, and it passes the validator exactly when it does not
      blank the name. */
  lemma UpdatedStaysGated(p: Promotion, nom: Option<string>, dateDebut: Option<int>,
                          dateFin: Option<int>, actif: Option<bool>, gains: Option<seq<string>>,
                          dureeAffichage: Option<int>)
    requires SchemaValid(p) && TypeGated(p)
    ensures var q := Updated(p, nom, dateDebut, dateFin, actif, gains, dureeAffichage);
      TypeGated(q) && (SchemaValid(q) <==> !(nom.Some? && Trim(nom.value) == ""))
  {
  }

  /** Sending the same body twice gives what sending it once gives. */
  lemma UpdatedIdempotent(p: Promotion, nom: Option<string>, dateDebut: Option<int>,
                          dateFin: Option<int>, actif: Option<bool>, gains: Option<seq<string>>,
                          dureeAffichage: Option<int>)
    ensures var q := Updated(p, nom, dateDebut, dateFin, actif, gains, dureeAffichage);
      Updated(q, nom, dateDebut, dateFin, actif, gains, dureeAffichage) == q
  {
    var q := Updated(p, nom, dateDebut, dateFin, actif, gains, dureeAffichage);
    var q2 := Updated(q, nom, dateDebut, dateFin, actif, gains, dureeAffichage);
    assert q2.nom == q.nom by {
      if nom.Some? {
        TrimUnchanged(Trim(nom.value));
      }
    }
    assert q2.gains == q.gains by {
      if gains.Some? && p.kind == Tombola {
        TrimAllIdempotent(gains.value);
      }
    }
  }

  lemma TrimAllIdempotent(gains: seq<string>)
    ensures TrimAll(TrimAll(gains)) == TrimAll(gains)
  {
    forall i | 0 <= i < |gains|
      ensures Trim(Trim(gains[i])) == Trim(gains[i])
    {
      TrimUnchanged(Trim(gains[i]));
    }
  }

  /** The route's field-by-field assignments on the loaded promotion. */
  method ApplyUpdate(p: Promotion, nom: Option<string>, dateDebut: Option<int>,
                     dateFin: Option<int>, actif: Option<bool>, gains: Option<seq<string>>,
                     dureeAffichage: Option<int>) returns (q: Promotion)
    ensures q == Updated(p, nom, dateDebut, dateFin, actif, gains, dureeAffichage)
  {
    q := p;
    if nom.Some? { q := q.(nom := Trim(nom.value)); }
    if dateDebut.Some? { q := q.(dateDebut := dateDebut.value); }
    if dateFin.Some? { q := q.(dateFin := dateFin.value); }
    if actif.Some? { q := q.(actif := actif.value); }
    if gains.Some? && q.kind == Tombola { q := q.(gains := TrimAll(gains.value)); }
    if dureeAffichage.Some? { q := q.(dureeAffichage := dureeAffichage.value); }
  }

  method Update(coll: PromotionCollection, id: nat, nom: Option<string>, dateDebut: Option<int>,
                dateFin: Option<int>, actif: Option<bool>, gains: Option<seq<string>>,
                dureeAffichage: Option<int>)
    returns (reply: Reply<Promotion>)
    requires coll.Valid()
    modifies coll
    ensures coll.Valid() && coll.nextId == old(coll.nextId)
    ensures IndexOf(old(coll.docs), id).None? ==>
      reply == Reply(NOT_FOUND, None) && coll.docs == old(coll.docs)
    ensures IndexOf(old(coll.docs), id).Some? ==>
      var i := IndexOf(old(coll.docs), id).value;
      var q := Updated(old(coll.docs)[i], nom, dateDebut, dateFin, actif, gains, dureeAffichage);
      && (nom.Some? && Trim(nom.value) == "" ==>
            reply == Reply(SERVER_ERROR, None) && coll.docs == old(coll.docs))
      && (!(nom.Some? && Trim(nom.value) == "") ==>
            reply == Reply(OK, Some(q)) && coll.docs == old(coll.docs)[i := q])
  {
    var found := IndexOf(coll.docs, id);
    if found.None? {
      return Reply(NOT_FOUND, None);
    }
    var i := found.value;
    var p := ApplyUpdate(coll.docs[i], nom, dateDebut, dateFin, actif, gains, dureeAffichage);
    UpdatedStaysGated(coll.docs[i], nom, dateDebut, dateFin, actif, gains, dureeAffichage);
    // `save` runs the validator.
    if !SchemaValid(p) {
      return Reply(SERVER_ERROR, None);
    }
    StoredReplace(coll.docs, coll.nextId, i, p);
    coll.docs := coll.docs[i := p];
    reply := Reply(OK, Some(p));
  }

  // ---------------------------------------------------------------------------
  // DELETE /:id and PATCH /:id/toggle
  // ---------------------------------------------------------------------------

  method Delete(coll: PromotionCollection, id: nat) returns (reply: Reply<Promotion>)
    requires coll.Valid()
    modifies coll
    ensures coll.Valid() && coll.nextId == old(coll.nextId) && reply.record.None?
    ensures IndexOf(old(coll.docs), id).None? ==>
      reply.status == NOT_FOUND && coll.docs == old(coll.docs)
    ensures IndexOf(old(coll.docs), id).Some? ==>
      reply.status == OK && coll.docs == RemoveAt(old(coll.docs), IndexOf(old(coll.docs), id).value)
  {
    var found := IndexOf(coll.docs, id);
    if found.None? {
      return Reply(NOT_FOUND, None);
    }
    StoredRemove(coll.docs, coll.nextId, found.value);
    coll.docs := RemoveAt(coll.docs, found.value);
    reply := Reply(OK, None);
  }

  /** Once deleted, the id is gone: a later lookup, update, delete or toggle answers 404. */
  lemma DeletedIsGone(docs: seq<Promotion>, id: nat)
    requires UniqueIds(docs) && IndexOf(docs, id).Some?
    ensures Get(RemoveAt(docs, IndexOf(docs, id).value), id).status == NOT_FOUND
  {
    var i := IndexOf(docs, id).value;
    var r := RemoveAt(docs, i);
    forall k | 0 <= k < |r|
      ensures r[k].id != id
    {
      if k >= i {
        assert r[k] == docs[k + 1];
      }
    }
  }

  /** The toggle: `actif` flips and nothing else changes. */
  function Toggled(p: Promotion): (q: Promotion)
    ensures q == p.(actif := q.actif) && q.actif != p.actif
  {
    p.(actif := !p.actif)
  }

  /** Toggling twice restores the promotion; a toggle keeps it valid, and the promotion is
      active after the toggle exactly when it was inactive and its window contains `now`. */
  lemma ToggleFacts(p: Promotion, now: int)
    ensures Toggled(Toggled(p)) == p
    ensures SchemaValid(p) && TypeGated(p) ==> SchemaValid(Toggled(p)) && TypeGated(Toggled(p))
    ensures EstActive(Toggled(p), now) <==> !p.actif && p.dateDebut <= now <= p.dateFin
  {
  }

  /** Every stored promotion is valid, so the `save` after the flip always passes. */
  method Toggle(coll: PromotionCollection, id: nat) returns (reply: Reply<Promotion>)
    requires coll.Valid()
    modifies coll
    ensures coll.Valid() && coll.nextId == old(coll.nextId)
    ensures IndexOf(old(coll.docs), id).None? ==>
      reply == Reply(NOT_FOUND, None) && coll.docs == old(coll.docs)
    ensures IndexOf(old(coll.docs), id).Some? ==>
      var i := IndexOf(old(coll.docs), id).value;
      reply == Reply(OK, Some(Toggled(old(coll.docs)[i])))
      && coll.docs == old(coll.docs)[i := Toggled(old(coll.docs)[i])]
  {
    var found := IndexOf(coll.docs, id);
    if found.None? {
      return Reply(NOT_FOUND, None);
    }
    var i := found.value;
    var p := coll.docs[i];
    p := p.(actif := !p.actif);
    StoredReplace(coll.docs, coll.nextId, i, p);
    coll.docs := coll.docs[i := p];
    reply := Reply(OK, Some(p));
  }
}
