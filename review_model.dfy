/** The Review schema (models/Review.js) and its collection: the required fields, the trimmed
    and bounded message, the status enum with its default, and the like list. */
module ReviewModel {
  import opened Common

  /** The `maxlength` of a message, counted on the trimmed text. */
  const MAX_MESSAGE := 1000

  datatype Status = Pending | Approved | Rejected

  /** The `status` enum: exactly the three spellings below are accepted. */
  function ParseStatus(s: string): (r: Option<Status>)
    ensures r == Some(Pending) <==> s == "pending"
    ensures r == Some(Approved) <==> s == "approved"
    ensures r == Some(Rejected) <==> s == "rejected"
    ensures r.None? <==> s != "pending" && s != "approved" && s != "rejected"
  {
    if s == "pending" then Some(Pending)
    else if s == "approved" then Some(Approved)
    else if s == "rejected" then Some(Rejected)
    else None
  }

  /** The status a review gets when none is given. */
  const DEFAULT_STATUS := Approved

  /** A stored review. `likedBy` holds visitor ids, and a null entry (`None`) for each like
      sent without one; `createdAt` is set by the timestamps. */
  datatype Review = Review(
    id: nat,
    visitorId: string,
    nom: string,
    prenom: string,
    photo: string,
    message: string,
    status: Status,
    likes: int,
    likedBy: seq<Option<string>>,
    createdAt: int)

  /** What the validator checks on save: the five required strings are non-empty (after the
      `trim` setters of `nom`, `prenom` and `message`), and the message is at most 1000 UTF-16
      code units long. */
  predicate SchemaValid(r: Review) {
    && r.visitorId != "" && r.nom != "" && r.prenom != "" && r.photo != ""
    && r.message != "" && Utf16Length(r.message) <= MAX_MESSAGE
  }

  /** The document `Review.create` builds: the setters trim `nom`, `prenom` and `message`; an
      absent photo is stored as the empty string, which the required check refuses just as it
      refuses an absent one. */
  function NewReview(id: nat, visitorId: string, nom: string, prenom: string,
                     photo: Option<string>, message: string, status: Status, now: int): (r: Review)
    ensures r.id == id && r.createdAt == now && r.status == status
    ensures r.likes == 0 && r.likedBy == []
    ensures SchemaValid(r) <==>
      && visitorId != "" && Trim(nom) != "" && Trim(prenom) != "" && Truthy(photo)
      && Trim(message) != "" && Utf16Length(Trim(message)) <= MAX_MESSAGE
  {
    Review(id, visitorId, Trim(nom), Trim(prenom), if photo.Some? then photo.value else "",
           Trim(message), status, 0, [], now)
  }

  /** The bound counts UTF-16 code units: 999 letters and one emoji make 1001 units, so the
      message is refused although it has only 1000 characters. */
  lemma AstralMessageTooLong(id: nat, visitorId: string, nom: string, prenom: string,
                             photo: Option<string>, now: int)
    ensures var message := seq(999, i => 'a') + ['\U{1F600}'];
      |message| == MAX_MESSAGE
      && !SchemaValid(NewReview(id, visitorId, nom, prenom, photo, message, Approved, now))
  {
    var letters := seq(999, i => 'a');
    var message := letters + ['\U{1F600}'];
    TrimUnchanged(message);
    Utf16LengthAppend(letters, ['\U{1F600}']);
    assert Utf16Length(['\U{1F600}']) == 2 by {
      assert ['\U{1F600}'][1..] == [];
    }
  }

  /** The review with the given id, the first one in the collection (`findById`). */
  function IndexOf(docs: seq<Review>, id: nat): (r: Option<nat>)
    ensures r.Some? ==> r.value < |docs| && docs[r.value].id == id
    ensures r.None? ==> forall k :: 0 <= k < |docs| ==> docs[k].id != id
  {
    FindFirst(docs, (x: Review) => x.id == id)
  }

  predicate IdsBelow(docs: seq<Review>, bound: nat) {
    forall i :: 0 <= i < |docs| ==> docs[i].id < bound
  }

  predicate UniqueIds(docs: seq<Review>) {
    forall i, j :: 0 <= i < j < |docs| ==> docs[i].id != docs[j].id
  }

  /** Every stored review passed the validator when it was saved. */
  predicate AllSchemaValid(docs: seq<Review>) {
    forall i :: 0 <= i < |docs| ==> SchemaValid(docs[i])
  }

  /** A new valid review takes the next id: ids stay distinct and below the counter. */
  lemma AppendKeepsIds(docs: seq<Review>, nextId: nat, r: Review)
    requires IdsBelow(docs, nextId) && UniqueIds(docs) && AllSchemaValid(docs)
    requires r.id == nextId && SchemaValid(r)
    ensures IdsBelow(docs + [r], nextId + 1) && UniqueIds(docs + [r]) && AllSchemaValid(docs + [r])
  {
    var all := docs + [r];
    assert forall i :: 0 <= i < |docs| ==> all[i] == docs[i];
  }

  /** Saving a valid review under its own id keeps the collection well formed. */
  lemma ReplaceKeepsIds(docs: seq<Review>, nextId: nat, i: nat, r: Review)
    requires IdsBelow(docs, nextId) && UniqueIds(docs) && AllSchemaValid(docs)
    requires i < |docs| && r.id == docs[i].id && SchemaValid(r)
    ensures IdsBelow(docs[i := r], nextId) && UniqueIds(docs[i := r])
    ensures AllSchemaValid(docs[i := r])
  {
  }

  /** The `reviews` collection. Documents are values: loading one, changing it and saving it
      replaces the stored value. Every new document gets `nextId`, so ids never repeat. */
  class ReviewCollection {
    var docs: seq<Review>
    var nextId: nat

    ghost predicate Valid()
      reads this
    {
      IdsBelow(docs, nextId) && UniqueIds(docs) && AllSchemaValid(docs)
    }

    constructor ()
      ensures Valid() && docs == [] && nextId == 0
    {
      docs := [];
      nextId := 0;
    }
  }
}
