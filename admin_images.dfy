/** The admin image routes (controllers/adminImages.js) that are reachable: the per-category
    listing, creation with its defaults, and the reorder. Its update and delete routes are
    shadowed by the category router's routes of the same path, modelled in AdminCategories. */
module AdminImages {
  import opened Common
  import opened Sorting
  import opened ImageModel
  import CategoryModel

  // ---------------------------------------------------------------------------
  // GET /:categoryId/images
  // ---------------------------------------------------------------------------

  /** The listing of a category's images, active or not, in display order; 404 when the
      category does not exist. */
  function ImagesOf(cats: seq<CategoryModel.Category>, images: seq<Image>, categoryId: nat)
    : (reply: Reply<seq<Image>>)
    ensures reply.status == NOT_FOUND <==> CategoryModel.IndexOf(cats, categoryId).None?
    ensures reply.status != NOT_FOUND ==>
      && reply.status == OK && reply.record.Some?
      && multiset(reply.record.value) == multiset(Filter(images, (img: Image) => img.categorie == categoryId))
    ensures reply.status == NOT_FOUND ==> reply.record.None?
  {
    if CategoryModel.IndexOf(cats, categoryId).None? then Reply(NOT_FOUND, None)
    else Reply(OK, Some(SortBy(Filter(images, (img: Image) => img.categorie == categoryId),
                               DisplayOrder)))
  }

  /** The listing holds exactly the images of the category, by `ordre` and then newest first. */
  lemma ImagesOfOrdered(cats: seq<CategoryModel.Category>, images: seq<Image>, categoryId: nat)
    requires ImagesOf(cats, images, categoryId).status == OK
    ensures var r := ImagesOf(cats, images, categoryId).record.value;
      && (forall img :: img in r <==> img in images && img.categorie == categoryId)
      && forall i, j :: 0 <= i < j < |r| ==>
           r[i].ordre < r[j].ordre || (r[i].ordre == r[j].ordre && r[i].createdAt >= r[j].createdAt)
  {
    var f := Filter(images, (img: Image) => img.categorie == categoryId);
    var r := ImagesOf(cats, images, categoryId).record.value;
    assert forall img :: img in r <==> img in multiset(r);
    assert forall img :: img in f <==> img in multiset(f);
    SortBySorted(f, DisplayOrder);
    DisplayOrderSorted(r);
  }

  // ---------------------------------------------------------------------------
  // POST /:categoryId/images
  // ---------------------------------------------------------------------------

  /** The fields of the creation body. */
  datatype NewImageBody = NewImageBody(
    url: Option<string>,
    publicId: Option<string>,
    nom: Option<string>,
    prix: Option<int>,
    devise: Option<string>,
    description: Option<string>,
    enStock: Option<bool>,
    quantite: Option<int>,
    dimensions: Option<Dimensions>,
    materiau: Option<string>,
    ordre: Option<int>)

  /** The currency `Image.create` receives: the supplied one when truthy, else FCFA; `None`
      when it is outside the enum. */
  function CreateDevise(body: NewImageBody): (r: Option<Devise>)
    ensures !Truthy(body.devise) ==> r == Some(FCFA)
    ensures Truthy(body.devise) ==> r == ParseDevise(body.devise.value)
  {
    ParseDevise(OrString(body.devise, "FCFA"))
  }

  /** The document `Image.create` stores: falsy values take the route's defaults (`|| ''`,
      `|| 0`, `|| 1`, `|| {}`), `enStock` defaults only when absent, `nom` and `materiau` go
      through their `trim` setters, and the image starts active. */
  function NewImage(id: nat, categoryId: nat, body: NewImageBody, devise: Devise, now: int)
    : (img: Image)
    requires Truthy(body.url) && Truthy(body.publicId)
    ensures SchemaValid(img)
    ensures img.id == id && img.categorie == categoryId && img.createdAt == now && img.actif
    ensures img.url == body.url.value && img.publicId == body.publicId.value
    ensures img.nom == Trim(OrString(body.nom, "")) && img.materiau == Trim(OrString(body.materiau, ""))
    ensures img.description == OrString(body.description, "")
    ensures img.prix == Some(OrInt(body.prix, 0)) && img.devise == Some(devise)
    ensures img.enStock == Given(body.enStock, true)
    ensures img.quantite == OrInt(body.quantite, 1) && img.ordre == OrInt(body.ordre, 0)
    ensures img.dimensions == Some(Given(body.dimensions, NO_DIMENSIONS))
  {
    Image(id, body.url.value, body.publicId.value, Trim(OrString(body.nom, "")),
          Some(OrInt(body.prix, 0)), Some(devise), OrString(body.description, ""),
          Given(body.enStock, true), OrInt(body.quantite, 1),
          Some(Given(body.dimensions, NO_DIMENSIONS)), Trim(OrString(body.materiau, "")),
          categoryId, OrInt(body.ordre, 0), true, now)
  }

  /** A body with only the two required fields gives an active, in-stock, one-piece image at
      order 0, shown as "Prix sur demande" without a dimensions label; a quantity of 0 is
      replaced by 1. */
  lemma NewImageDefaults(id: nat, categoryId: nat, url: string, publicId: string, now: int)
    requires url != "" && publicId != ""
    ensures var body := NewImageBody(Some(url), Some(publicId), None, None, None, None, None,
                                     None, None, None, None);
      var img := NewImage(id, categoryId, body, FCFA, now);
      && CreateDevise(body) == Some(FCFA)
      && img.nom == "" && img.description == "" && img.materiau == ""
      && img.enStock && img.quantite == 1 && img.ordre == 0 && img.actif
      && PrixFormate(img) == PRIX_SUR_DEMANDE && DimensionsFormatees(img).None?
    ensures var body := NewImageBody(Some(url), Some(publicId), None, None, None, None, None,
                                     Some(0), None, None, None);
      NewImage(id, categoryId, body, FCFA, now).quantite == 1
  {
  }

  method Create(images: ImageCollection, categories: CategoryModel.CategoryCollection,
                categoryId: nat, body: NewImageBody, now: int)
    returns (reply: Reply<Image>)
    requires images.Valid()
    modifies images
    ensures images.Valid()
    ensures reply.status == BAD_REQUEST <==> !Truthy(body.url) || !Truthy(body.publicId)
    ensures reply.status == NOT_FOUND <==>
      Truthy(body.url) && Truthy(body.publicId)
      && CategoryModel.IndexOf(old(categories.docs), categoryId).None?
    ensures reply.status == SERVER_ERROR <==>
      Truthy(body.url) && Truthy(body.publicId)
      && CategoryModel.IndexOf(old(categories.docs), categoryId).Some? && CreateDevise(body).None?
    ensures reply.status == CREATED ==>
      && Truthy(body.url) && Truthy(body.publicId) && CreateDevise(body).Some?
      && reply.record == Some(NewImage(old(images.nextId), categoryId, body,
                                       CreateDevise(body).value, now))
      && var img := reply.record.value;
      && images.docs == old(images.docs) + [img] && images.nextId == old(images.nextId) + 1
    ensures reply.status != CREATED ==>
      reply.status in {BAD_REQUEST, NOT_FOUND, SERVER_ERROR} && reply.record.None?
      && images.docs == old(images.docs) && images.nextId == old(images.nextId)
  {
    if !Truthy(body.url) || !Truthy(body.publicId) {
      return Reply(BAD_REQUEST, None);
    }
    var category := CategoryModel.IndexOf(categories.docs, categoryId);
    if category.None? {
      return Reply(NOT_FOUND, None);
    }
    // The enum check of `Image.create`.
    var devise := CreateDevise(body);
    if devise.None? {
      return Reply(SERVER_ERROR, None);
    }
    var img := NewImage(images.nextId, categoryId, body, devise.value, now);
    images.Insert(img);
    reply := Reply(CREATED, Some(img));
  }

  // ---------------------------------------------------------------------------
  // PUT /:categoryId/images/reorder
  // ---------------------------------------------------------------------------

  /** The last position of `id` in the list: with repeated ids the later update wins. */
  function LastIndexOf(ids: seq<nat>, id: nat): (r: Option<nat>)
    ensures r.Some? ==> r.value < |ids| && ids[r.value] == id
    ensures r.Some? ==> forall k :: r.value < k < |ids| ==> ids[k] != id
    ensures r.None? <==> id !in ids
  {
    if ids == [] then None
    else if ids[|ids| - 1] == id then Some(|ids| - 1)
    else LastIndexOf(ids[..|ids| - 1], id)
  }

  /** An image after the reorder: its `ordre` becomes its last position in the list; an image
      the list does not name is untouched. */
  function Reordered(img: Image, ids: seq<nat>): (r: Image)
    ensures r == img.(ordre := r.ordre)
    ensures img.id !in ids ==> r == img
    ensures img.id in ids ==> r.ordre == LastIndexOf(ids, img.id).value
  {
    match LastIndexOf(ids, img.id)
    case None => img
    case Some(i) => img.(ordre := i)
  }

  /** One more id in the list: only the image with that id changes, and it takes the new
      position. */
  lemma ReorderedStep(img: Image, ids: seq<nat>, i: nat)
    requires i < |ids|
    ensures Reordered(img, ids[..i + 1]) ==
      if img.id == ids[i] then img.(ordre := i) else Reordered(img, ids[..i])
  {
    assert ids[..i + 1][..i] == ids[..i];
  }

  /** With no repeated id, the image named at position `i` gets `ordre` `i`. */
  lemma ReorderedPosition(img: Image, ids: seq<nat>, i: nat)
    requires i < |ids| && img.id == ids[i]
    requires forall a, b :: 0 <= a < b < |ids| ==> ids[a] != ids[b]
    ensures Reordered(img, ids).ordre == i
  {
  }

  /** One `findByIdAndUpdate` of the reorder loop: the image with id `id`, if any, takes
      `ordre` `pos`; every other image is untouched. */
  method SetOrder(docs: seq<Image>, nextId: nat, id: nat, pos: int) returns (r: seq<Image>)
    requires UniqueIds(docs) && AllStored(docs, nextId)
    ensures UniqueIds(r) && AllStored(r, nextId) && |r| == |docs|
    ensures forall k :: 0 <= k < |docs| ==>
      r[k] == if docs[k].id == id then docs[k].(ordre := pos) else docs[k]
  {
    r := docs;
    var found := IndexOf(docs, id);
    if found.Some? {
      var j := found.value;
      var img := docs[j].(ordre := pos);
      StoredReplace(docs, nextId, j, img);
      r := docs[j := img];
    }
  }

  method Reorder(images: ImageCollection, categoryId: nat, imageIds: Option<seq<nat>>)
    returns (status: int)
    requires images.Valid()
    modifies images
    ensures images.Valid() && images.nextId == old(images.nextId)
    ensures imageIds.None? ==> status == BAD_REQUEST && images.docs == old(images.docs)
    ensures imageIds.Some? ==>
      && status == OK && |images.docs| == |old(images.docs)|
      && forall k :: 0 <= k < |images.docs| ==>
           images.docs[k] == Reordered(old(images.docs)[k], imageIds.value)
  {
    if imageIds.None? {
      return BAD_REQUEST;
    }
    var ids := imageIds.value;
    var i := 0;
    while i < |ids|
      invariant 0 <= i <= |ids|
      invariant images.Valid() && images.nextId == old(images.nextId)
      invariant |images.docs| == |old(images.docs)|
      invariant forall k :: 0 <= k < |images.docs| ==>
        images.docs[k] == Reordered(old(images.docs)[k], ids[..i])
    {
      forall k | 0 <= k < |images.docs|
        ensures Reordered(old(images.docs)[k], ids[..i + 1]) ==
          if images.docs[k].id == ids[i] then images.docs[k].(ordre := i) else images.docs[k]
      {
        ReorderedStep(old(images.docs)[k], ids, i);
      }
      images.docs := SetOrder(images.docs, images.nextId, ids[i], i);
      i := i + 1;
    }
    assert ids[..|ids|] == ids;
    status := OK;
  }
}
