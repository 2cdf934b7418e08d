/** The admin category routes (controllers/adminCategories.js): the listing with image counts,
    lookup, creation with its case-insensitive duplicate check, gated update, delete refused
    while images reference the category, and the two image routes this router serves first
    because it is mounted before the image router: the `Object.assign` merge and the delete. */
module AdminCategories {
  import opened Common
  import opened Sorting
  import opened CategoryModel
  import ImageModel

  // ---------------------------------------------------------------------------
  // GET / and GET /:id
  // ---------------------------------------------------------------------------

  /** A category as the admin routes answer it: the stored record and its image count. */
  datatype Counted = Counted(category: Category, nombreImages: nat)

  /** Sort key of `.sort({ ordre: 1, createdAt: -1 })`. */
  function AdminOrder(c: Category): seq<int> {
    [c.ordre, -c.createdAt]
  }

  /** The listing: every category, each with the number of images that reference it. */
  function List(cats: seq<Category>, images: seq<ImageModel.Image>): (r: seq<Counted>)
    ensures |r| == |cats|
    ensures forall i :: 0 <= i < |r| ==>
      r[i].category in cats && r[i].nombreImages == ImageModel.ImageCount(images, r[i].category.id)
    ensures forall c :: c in cats ==> exists i :: 0 <= i < |r| && r[i].category == c
  {
    var s := SortBy(cats, AdminOrder);
    var r := seq(|s|, i requires 0 <= i < |s| => Counted(s[i], ImageModel.ImageCount(images, s[i].id)));
    assert forall i :: 0 <= i < |s| ==> s[i] in multiset(cats);
    forall c | c in cats
      ensures exists i :: 0 <= i < |r| && r[i].category == c
    {
      assert c in multiset(s);
      var i :| 0 <= i < |s| && s[i] == c;
      assert r[i].category == c;
    }
    r
  }

  /** The listing is ordered by `ordre`, newer first among equal `ordre` values. */
  lemma ListOrdered(cats: seq<Category>, images: seq<ImageModel.Image>)
    ensures var r := List(cats, images);
      forall i, j :: 0 <= i < j < |r| ==>
        var a, b := r[i].category, r[j].category;
        a.ordre < b.ordre || (a.ordre == b.ordre && a.createdAt >= b.createdAt)
  {
    var s := SortBy(cats, AdminOrder);
    var r := List(cats, images);
    SortBySorted(cats, AdminOrder);
    forall i, j | 0 <= i < j < |r|
      ensures var a, b := r[i].category, r[j].category;
        a.ordre < b.ordre || (a.ordre == b.ordre && a.createdAt >= b.createdAt)
    {
      assert r[i].category == s[i] && r[j].category == s[j];
      assert LexLe(AdminOrder(s[i]), AdminOrder(s[j]));
      LexLePair(s[i].ordre, -s[i].createdAt, s[j].ordre, -s[j].createdAt);
    }
  }

  /** The lookup: 404 for an unknown id, otherwise the category and its image count. */
  function Get(cats: seq<Category>, images: seq<ImageModel.Image>, id: nat): (reply: Reply<Counted>)
    ensures reply.status == NOT_FOUND <==> forall k :: 0 <= k < |cats| ==> cats[k].id != id
    ensures reply.status != NOT_FOUND ==>
      && reply.status == OK && reply.record.Some?
      && reply.record.value.category in cats && reply.record.value.category.id == id
      && reply.record.value.nombreImages == ImageModel.ImageCount(images, id)
  {
    match IndexOf(cats, id)
    case None => Reply(NOT_FOUND, None)
    case Some(i) => Reply(OK, Some(Counted(cats[i], ImageModel.ImageCount(images, id))))
  }

  // ---------------------------------------------------------------------------
  // POST / : creation
  // ---------------------------------------------------------------------------

  /** The duplicate check `{ nom: { $regex: ^name$, i } }`: the stored name equals the trimmed
      request name once both are lower-cased. */
  predicate SameNameIgnoringCase(c: Category, name: string) {
    Lower(c.nom) == Lower(name)
  }

  /** A unique index is hit: another category already has this exact name or this slug. */
  predicate Clashes(o: Category, c: Category) {
    o.id != c.id && (o.nom == c.nom || o.slug == c.slug)
  }

  method Create(coll: CategoryCollection, nom: Option<string>, ordre: Option<int>, now: int)
    returns (reply: Reply<Category>)
    requires coll.Valid()
    modifies coll
    ensures coll.Valid()
    ensures reply.status == BAD_REQUEST <==>
      || nom.None? || IsBlank(nom.value)
      || exists k :: 0 <= k < |old(coll.docs)| && SameNameIgnoringCase(old(coll.docs)[k], Trim(nom.value))
    ensures reply.status == SERVER_ERROR <==>
      && nom.Some? && !IsBlank(nom.value)
      && (forall k :: 0 <= k < |old(coll.docs)| ==>
            !SameNameIgnoringCase(old(coll.docs)[k], Trim(nom.value)))
      && exists k :: 0 <= k < |old(coll.docs)| && old(coll.docs)[k].slug == Slug(Trim(nom.value))
    ensures reply.status == CREATED ==>
      var c := NewCategory(old(coll.nextId), Trim(nom.value), OrInt(ordre, 0), now);
      && reply.record == Some(c)
      && coll.docs == old(coll.docs) + [c] && coll.nextId == old(coll.nextId) + 1
    ensures reply.status != CREATED ==>
      reply.status in {BAD_REQUEST, SERVER_ERROR} && reply.record.None?
      && coll.docs == old(coll.docs) && coll.nextId == old(coll.nextId)
  {
    if nom.None? || nom.value == "" || Trim(nom.value) == "" {
      return Reply(BAD_REQUEST, None);
    }
    var name := Trim(nom.value);
    var existing := FindFirst(coll.docs, (c: Category) => SameNameIgnoringCase(c, name));
    if existing.Some? {
      return Reply(BAD_REQUEST, None);
    }
    var c := NewCategory(coll.nextId, name, OrInt(ordre, 0), now);
    // The unique indexes on `nom` and `slug`.
    var taken := FindFirst(coll.docs, (o: Category) => Clashes(o, c));
    if taken.Some? {
      return Reply(SERVER_ERROR, None);
    }
    StoredAppend(coll.docs, coll.nextId, c);
    coll.docs := coll.docs + [c];
    coll.nextId := coll.nextId + 1;
    reply := Reply(CREATED, Some(c));
  }

  /** The duplicate check ignores case but not accents or punctuation, while the slug drops
      both: "e" passes the check against a stored "É", and its slug collides with that
      category's slug. */
  lemma DuplicateCheckMissesSlugClash(c: Category)
    requires c.nom == "\U{C9}" && c.slug == Slug(c.nom)
    ensures !SameNameIgnoringCase(c, "e")
    ensures c.slug == Slug("e")
  {
    assert Lower("\U{C9}") == "\U{E9}";
    assert Lower("e") == "e";
    SlugExamples();
    assert Lower("e") == "e" && Nfd("e") == "e" && StripMarks("e") == "e";
    assert HyphenateOthers("e") == "e";
  }

  // ---------------------------------------------------------------------------
  // PUT /:id : update
  // ---------------------------------------------------------------------------

  /** The update applied to a loaded category: the name only when it is not blank, trimmed; the
      description trimmed; the order and the flag when supplied; then the pre-save hook, which
      recomputes the slug when the name changed. */
  function Edited(c: Category, nom: Option<string>, description: Option<string>,
                  ordre: Option<int>, actif: Option<bool>): (e: Category)
    ensures e.id == c.id && e.createdAt == c.createdAt
    ensures e.nom == (if nom.Some? && !IsBlank(nom.value) then Trim(nom.value) else c.nom)
    ensures e.description == (if description.Some? then Trim(description.value) else c.description)
    ensures e.ordre == Given(ordre, c.ordre) && e.actif == Given(actif, c.actif)
    ensures e.slug == (if e.nom != c.nom then Slug(e.nom) else c.slug)
  {
    var c1 := if nom.Some? && nom.value != "" && Trim(nom.value) != "" then c.(nom := Trim(nom.value))
              else c;
    var c2 := if description.Some? then c1.(description := Trim(description.value)) else c1;
    var c3 := if ordre.Some? then c2.(ordre := ordre.value) else c2;
    var c4 := if actif.Some? then c3.(actif := actif.value) else c3;
    PreSave(c4, c4.nom != c.nom)
  }

  /** An update never empties the name, keeps a trimmed name trimmed, and keeps the slug the
      slug of the name; an empty body changes nothing. */
  lemma EditedStored(c: Category, nom: Option<string>, description: Option<string>,
                     ordre: Option<int>, actif: Option<bool>)
    ensures var e := Edited(c, nom, description, ordre, actif);
      && (c.nom != "" ==> e.nom != "")
      && (Trim(c.nom) == c.nom ==> Trim(e.nom) == e.nom)
      && (Slugged(c) ==> Slugged(e))
    ensures Edited(c, None, None, None, None) == c
  {
    EditedName(c, nom, description, ordre, actif);
    var same := Edited(c, None, None, None, None);
    assert same == c.(slug := same.slug);
  }

  /** The name an update leaves is the old one or a trimmed, non-blank one. */
  lemma EditedName(c: Category, nom: Option<string>, description: Option<string>,
                   ordre: Option<int>, actif: Option<bool>)
    ensures var e := Edited(c, nom, description, ordre, actif);
      || (e.nom == c.nom && e.slug == c.slug)
      || (e.nom != "" && Trim(e.nom) == e.nom && e.slug == Slug(e.nom))
  {
    if nom.Some? && !IsBlank(nom.value) {
      TrimUnchanged(Trim(nom.value));
    }
  }

  /** No category route breaks the slug invariant: a created category gets the slug of its
      name, an update recomputes it when the name changes, a delete removes a whole record. */
  lemma RoutesKeepSlugs(docs: seq<Category>, i: nat, id: nat, name: string, o: int, now: int,
                        nom: Option<string>, description: Option<string>,
                        ordre: Option<int>, actif: Option<bool>)
    requires AllSlugged(docs) && i < |docs|
    ensures AllSlugged(docs + [NewCategory(id, name, o, now)])
    ensures AllSlugged(docs[i := Edited(docs[i], nom, description, ordre, actif)])
    ensures AllSlugged(RemoveAt(docs, i))
  {
    var added := docs + [NewCategory(id, name, o, now)];
    forall k | 0 <= k < |added|
      ensures Slugged(added[k])
    {
      if k < |docs| {
        assert added[k] == docs[k];
      }
    }
    var e := Edited(docs[i], nom, description, ordre, actif);
    EditedStored(docs[i], nom, description, ordre, actif);
    var edited := docs[i := e];
    forall k | 0 <= k < |edited|
      ensures Slugged(edited[k])
    {
      if k != i {
        assert edited[k] == docs[k];
      }
    }
    var removed := RemoveAt(docs, i);
    forall k | 0 <= k < |removed|
      ensures Slugged(removed[k])
    {
      if k >= i {
        assert removed[k] == docs[k + 1];
      }
    }
  }

  /** The route's field-by-field assignments on the loaded category, then the hook. */
  method ApplyEdit(c: Category, nom: Option<string>, description: Option<string>,
                   ordre: Option<int>, actif: Option<bool>) returns (e: Category)
    ensures e == Edited(c, nom, description, ordre, actif)
  {
    e := c;
    if nom.Some? && nom.value != "" && Trim(nom.value) != "" {
      e := e.(nom := Trim(nom.value));
    }
    if description.Some? {
      e := e.(description := Trim(description.value));
    }
    if ordre.Some? {
      e := e.(ordre := ordre.value);
    }
    if actif.Some? {
      e := e.(actif := actif.value);
    }
    e := PreSave(e, e.nom != c.nom);
  }

  method Update(coll: CategoryCollection, id: nat, nom: Option<string>,
                description: Option<string>, ordre: Option<int>, actif: Option<bool>)
    returns (reply: Reply<Category>)
    requires coll.Valid()
    modifies coll
    ensures coll.Valid() && coll.nextId == old(coll.nextId)
    ensures IndexOf(old(coll.docs), id).None? ==>
      reply == Reply(NOT_FOUND, None) && coll.docs == old(coll.docs)
    ensures IndexOf(old(coll.docs), id).Some? ==>
      var i := IndexOf(old(coll.docs), id).value;
      var e := Edited(old(coll.docs)[i], nom, description, ordre, actif);
      var clash := exists k :: 0 <= k < |old(coll.docs)| && Clashes(old(coll.docs)[k], e);
      && (clash ==> reply == Reply(SERVER_ERROR, None) && coll.docs == old(coll.docs))
      && (!clash ==> reply == Reply(OK, Some(e)) && coll.docs == old(coll.docs)[i := e])
  {
    var found := IndexOf(coll.docs, id);
    if found.None? {
      return Reply(NOT_FOUND, None);
    }
    var i := found.value;
    var c := ApplyEdit(coll.docs[i], nom, description, ordre, actif);
    assert c.nom != "" by {
      EditedStored(coll.docs[i], nom, description, ordre, actif);
    }
    var taken := FindFirst(coll.docs, (o: Category) => Clashes(o, c));
    if taken.Some? {
      return Reply(SERVER_ERROR, None);
    }
    StoredReplace(coll.docs, coll.nextId, i, c);
    coll.docs := coll.docs[i := c];
    reply := Reply(OK, Some(c));
  }

  // ---------------------------------------------------------------------------
  // DELETE /:id
  // ---------------------------------------------------------------------------

  /** The delete answers the image count when it refuses. */
  method Delete(coll: CategoryCollection, images: ImageModel.ImageCollection, id: nat)
    returns (reply: Reply<nat>)
    requires coll.Valid()
    modifies coll
    ensures coll.Valid() && coll.nextId == old(coll.nextId)
    ensures IndexOf(old(coll.docs), id).None? ==>
      reply == Reply(NOT_FOUND, None) && coll.docs == old(coll.docs)
    ensures IndexOf(old(coll.docs), id).Some? ==>
      var n := ImageModel.ImageCount(images.docs, id);
      && (n > 0 ==> reply == Reply(BAD_REQUEST, Some(n)) && coll.docs == old(coll.docs))
      && (n == 0 ==> reply == Reply(OK, None)
                     && coll.docs == RemoveAt(old(coll.docs), IndexOf(old(coll.docs), id).value))
  {
    var found := IndexOf(coll.docs, id);
    if found.None? {
      return Reply(NOT_FOUND, None);
    }
    var imageCount := ImageModel.ImageCount(images.docs, id);
    if imageCount > 0 {
      return Reply(BAD_REQUEST, Some(imageCount));
    }
    StoredRemove(coll.docs, coll.nextId, found.value);
    coll.docs := RemoveAt(coll.docs, found.value);
    reply := Reply(OK, None);
  }

  /** A successful delete never leaves an image pointing at the removed category. */
  lemma DeleteLeavesNoOrphan(images: seq<ImageModel.Image>, id: nat)
    requires ImageModel.ImageCount(images, id) == 0
    ensures forall k :: 0 <= k < |images| ==> images[k].categorie != id
  {
  }

  // ---------------------------------------------------------------------------
  // PUT /images/:imageId and DELETE /images/:imageId
  // ---------------------------------------------------------------------------

  /** The body of the image update: every schema field may be supplied. */
  datatype ImagePatch = ImagePatch(
    url: Option<string>,
    publicId: Option<string>,
    nom: Option<string>,
    prix: Option<int>,
    devise: Option<string>,
    description: Option<string>,
    enStock: Option<bool>,
    quantite: Option<int>,
    dimensions: Option<ImageModel.Dimensions>,
    materiau: Option<string>,
    categorie: Option<nat>,
    ordre: Option<int>,
    actif: Option<bool>)

  const EMPTY_PATCH := ImagePatch(None, None, None, None, None, None, None, None, None, None,
                                  None, None, None)

  /** `Object.assign(image, body)` followed by `save`: every supplied field is assigned (`nom`
      and `materiau` through their `trim` setters), then the validator refuses a currency
      outside the enum or an emptied `url` or `publicId`. The category is not checked against
      the category collection. */
  function Merged(img: ImageModel.Image, patch: ImagePatch): (r: Option<ImageModel.Image>)
    ensures r.None? <==>
      || (patch.devise.Some? && ImageModel.ParseDevise(patch.devise.value).None?)
      || Given(patch.url, img.url) == "" || Given(patch.publicId, img.publicId) == ""
    ensures r.Some? ==>
      var m := r.value;
      && ImageModel.SchemaValid(m)
      && m.id == img.id && m.createdAt == img.createdAt
      && m.url == Given(patch.url, img.url) && m.publicId == Given(patch.publicId, img.publicId)
      && m.nom == (if patch.nom.Some? then Trim(patch.nom.value) else img.nom)
      && m.prix == (if patch.prix.Some? then patch.prix else img.prix)
      && m.devise == (if patch.devise.Some? then ImageModel.ParseDevise(patch.devise.value)
                      else img.devise)
      && m.description == Given(patch.description, img.description)
      && m.enStock == Given(patch.enStock, img.enStock)
      && m.quantite == Given(patch.quantite, img.quantite)
      && m.dimensions == (if patch.dimensions.Some? then patch.dimensions else img.dimensions)
      && m.materiau == (if patch.materiau.Some? then Trim(patch.materiau.value) else img.materiau)
      && m.categorie == Given(patch.categorie, img.categorie)
      && m.ordre == Given(patch.ordre, img.ordre) && m.actif == Given(patch.actif, img.actif)
  {
    var devise := if patch.devise.Some? then ImageModel.ParseDevise(patch.devise.value)
                  else img.devise;
    var m := ImageModel.Image(
      img.id,
      Given(patch.url, img.url),
      Given(patch.publicId, img.publicId),
      if patch.nom.Some? then Trim(patch.nom.value) else img.nom,
      if patch.prix.Some? then patch.prix else img.prix,
      devise,
      Given(patch.description, img.description),
      Given(patch.enStock, img.enStock),
      Given(patch.quantite, img.quantite),
      if patch.dimensions.Some? then patch.dimensions else img.dimensions,
      if patch.materiau.Some? then Trim(patch.materiau.value) else img.materiau,
      Given(patch.categorie, img.categorie),
      Given(patch.ordre, img.ordre),
      Given(patch.actif, img.actif),
      img.createdAt);
    if (patch.devise.Some? && devise.None?) || !ImageModel.SchemaValid(m) then None
    else Some(m)
  }

  /** An empty body saves the image unchanged, and applying the same body twice gives what
      applying it once gives. */
  lemma MergedIdempotent(img: ImageModel.Image, patch: ImagePatch)
    requires ImageModel.SchemaValid(img)
    ensures Merged(img, EMPTY_PATCH) == Some(img)
    ensures Merged(img, patch).Some? ==> Merged(Merged(img, patch).value, patch) == Merged(img, patch)
  {
    var r := Merged(img, patch);
    if r.Some? {
      var m := r.value;
      var m2 := Merged(m, patch);
      assert m2.Some?;
      assert m2.value.nom == m.nom by {
        if patch.nom.Some? {
          TrimUnchanged(Trim(patch.nom.value));
        }
      }
      assert m2.value.materiau == m.materiau by {
        if patch.materiau.Some? {
          TrimUnchanged(Trim(patch.materiau.value));
        }
      }
    }
  }

  method UpdateImage(images: ImageModel.ImageCollection, imageId: nat, patch: ImagePatch)
    returns (reply: Reply<ImageModel.Image>)
    requires images.Valid()
    modifies images
    ensures images.Valid() && images.nextId == old(images.nextId)
    ensures ImageModel.IndexOf(old(images.docs), imageId).None? ==>
      reply == Reply(NOT_FOUND, None) && images.docs == old(images.docs)
    ensures ImageModel.IndexOf(old(images.docs), imageId).Some? ==>
      var i := ImageModel.IndexOf(old(images.docs), imageId).value;
      var m := Merged(old(images.docs)[i], patch);
      && (m.None? ==> reply == Reply(SERVER_ERROR, None) && images.docs == old(images.docs))
      && (m.Some? ==> reply == Reply(OK, m) && images.docs == old(images.docs)[i := m.value])
  {
    var found := ImageModel.IndexOf(images.docs, imageId);
    if found.None? {
      return Reply(NOT_FOUND, None);
    }
    var i := found.value;
    var m := Merged(images.docs[i], patch);
    if m.None? {
      return Reply(SERVER_ERROR, None);
    }
    ImageModel.StoredReplace(images.docs, images.nextId, i, m.value);
    images.docs := images.docs[i := m.value];
    reply := Reply(OK, m);
  }

  method DeleteImage(images: ImageModel.ImageCollection, imageId: nat)
    returns (reply: Reply<ImageModel.Image>)
    requires images.Valid()
    modifies images
    ensures images.Valid() && images.nextId == old(images.nextId) && reply.record.None?
    ensures ImageModel.IndexOf(old(images.docs), imageId).None? ==>
      reply.status == NOT_FOUND && images.docs == old(images.docs)
    ensures ImageModel.IndexOf(old(images.docs), imageId).Some? ==>
      reply.status == OK
      && images.docs == RemoveAt(old(images.docs), ImageModel.IndexOf(old(images.docs), imageId).value)
  {
    var found := ImageModel.IndexOf(images.docs, imageId);
    if found.None? {
      return Reply(NOT_FOUND, None);
    }
    ImageModel.StoredRemove(images.docs, images.nextId, found.value);
    images.docs := RemoveAt(images.docs, found.value);
    reply := Reply(OK, None);
  }
}
