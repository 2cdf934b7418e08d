/** The public category routes (controllers/publicCategories.js): read-only queries over the
    category and image collections. The storage failure answered with 500 is not part of this
    model. */
module PublicCategories {
  import opened Common
  import opened Sorting
  import opened CategoryModel
  import ImageModel

  /** How many images each category of the listing carries at most (`.limit(20)`). */
  const IMAGE_CAP: nat := 20

  /** The listing's `.sort({ ordre: 1, nom: 1 })`: by order, then by name. */
  function PublicOrder(c: Category): seq<int> {
    [c.ordre] + StringKey(c.nom)
  }

  /** The active images of a category in display order (`ordre` ascending, newest first). */
  function ActiveImages(images: seq<ImageModel.Image>, categoryId: nat): (r: seq<ImageModel.Image>)
    ensures forall img :: img in r <==> img in images && img.categorie == categoryId && img.actif
    ensures |r| == Count(images, (img: ImageModel.Image) => img.categorie == categoryId && img.actif)
  {
    var f := Filter(images, (img: ImageModel.Image) => img.categorie == categoryId && img.actif);
    var r := SortBy(f, ImageModel.DisplayOrder);
    assert forall img :: img in r <==> img in multiset(r);
    assert forall img :: img in f <==> img in multiset(f);
    FilterCount(images, (img: ImageModel.Image) => img.categorie == categoryId && img.actif);
    r
  }

  /** The active images of a category are in display order. */
  lemma ActiveImagesOrdered(images: seq<ImageModel.Image>, categoryId: nat)
    ensures var r := ActiveImages(images, categoryId);
      forall i, j :: 0 <= i < j < |r| ==>
        r[i].ordre < r[j].ordre || (r[i].ordre == r[j].ordre && r[i].createdAt >= r[j].createdAt)
  {
    SortBySorted(Filter(images, (img: ImageModel.Image) => img.categorie == categoryId && img.actif),
                 ImageModel.DisplayOrder);
    ImageModel.DisplayOrderSorted(ActiveImages(images, categoryId));
  }

  // ---------------------------------------------------------------------------
  // GET /
  // ---------------------------------------------------------------------------

  /** One category of the listing: its selected fields, its first images and their number. */
  datatype Entry = Entry(
    id: nat,
    nom: string,
    slug: string,
    ordre: int,
    images: seq<ImageModel.Image>,
    nombreImages: nat)

  /** The body of the listing: `count` and the categories. */
  datatype Listing = Listing(count: nat, categories: seq<Entry>)

  /** The entry of one category: at most IMAGE_CAP of its active images, and their number. */
  function EntryOf(c: Category, images: seq<ImageModel.Image>): (e: Entry)
    ensures e.id == c.id && e.nom == c.nom && e.slug == c.slug && e.ordre == c.ordre
    ensures e.nombreImages == |e.images| <= IMAGE_CAP
  {
    var imgs := Take(ActiveImages(images, c.id), IMAGE_CAP);
    Entry(c.id, c.nom, c.slug, c.ordre, imgs, |imgs|)
  }

  /** An entry's images are the first IMAGE_CAP active images of its category, or all of them
      when there are fewer. */
  lemma EntryImages(c: Category, images: seq<ImageModel.Image>)
    ensures var all := ActiveImages(images, c.id);
      var e := EntryOf(c, images);
      && |e.images| == (if |all| <= IMAGE_CAP then |all| else IMAGE_CAP)
      && e.images == all[..|e.images|]
  {
  }

  /** The sort key of an entry, the one of the category it shows. */
  function EntryOrder(e: Entry): seq<int> {
    [e.ordre] + StringKey(e.nom)
  }

  /** The active categories in listing order. */
  function ActiveCategories(cats: seq<Category>): (r: seq<Category>)
    ensures forall c :: c in r <==> c in cats && c.actif
  {
    var f := Filter(cats, (c: Category) => c.actif);
    var r := SortBy(f, PublicOrder);
    assert forall c :: c in r <==> c in multiset(r);
    assert forall c :: c in f <==> c in multiset(f);
    r
  }

  /** The entries of the given categories, in the same order. */
  function Entries(sorted: seq<Category>, images: seq<ImageModel.Image>): (r: seq<Entry>)
    ensures |r| == |sorted|
    ensures forall i :: 0 <= i < |sorted| ==> r[i] == EntryOf(sorted[i], images)
  {
    seq(|sorted|, i requires 0 <= i < |sorted| => EntryOf(sorted[i], images))
  }

  /** The listing's `filter((cat) => cat.images.length > 0)`. */
  predicate HasImages(e: Entry) {
    |e.images| > 0
  }

  /** `GET /`: the active categories that have at least one active image, by order then name,
      each with its entry; `count` is the number of categories returned. */
  function PublicListing(cats: seq<Category>, images: seq<ImageModel.Image>): (r: Listing)
    ensures r.count == |r.categories|
    ensures forall i :: 0 <= i < |r.categories| ==> |r.categories[i].images| > 0
  {
    var kept := Filter(Entries(ActiveCategories(cats), images), HasImages);
    Listing(|kept|, kept)
  }

  /** Every category given has its entry, and every entry comes from a category given. */
  lemma EntriesMembers(sorted: seq<Category>, images: seq<ImageModel.Image>, e: Entry)
    ensures e in Entries(sorted, images) <==> exists c :: c in sorted && e == EntryOf(c, images)
  {
    var all := Entries(sorted, images);
    if e in all {
      var i :| 0 <= i < |all| && all[i] == e;
      assert sorted[i] in sorted;
    }
    if c :| c in sorted && e == EntryOf(c, images) {
      var i :| 0 <= i < |sorted| && sorted[i] == c;
      assert all[i] == e;
    }
  }

  /** The listing holds exactly the entries of the active categories that have an active
      image. */
  lemma ListingMembers(cats: seq<Category>, images: seq<ImageModel.Image>, e: Entry)
    ensures e in PublicListing(cats, images).categories <==>
      exists c :: c in cats && c.actif && e == EntryOf(c, images) && |e.images| > 0
  {
    var sorted := ActiveCategories(cats);
    FilterMember(Entries(sorted, images), HasImages, e);
    EntriesMembers(sorted, images, e);
  }

  /** Every active category with an active image is listed; with fewer than IMAGE_CAP images
      it carries all of them, otherwise the first IMAGE_CAP in display order. */
  lemma ListingComplete(cats: seq<Category>, images: seq<ImageModel.Image>, c: Category,
                        img: ImageModel.Image)
    requires c in cats && c.actif
    requires img in images && img.categorie == c.id && img.actif
    ensures EntryOf(c, images) in PublicListing(cats, images).categories
    ensures var all := ActiveImages(images, c.id);
      EntryOf(c, images).images == if |all| <= IMAGE_CAP then all else all[..IMAGE_CAP]
  {
    var all := ActiveImages(images, c.id);
    assert img in all;
    EntryImages(c, images);
    ListingMembers(cats, images, EntryOf(c, images));
  }

  /** A category is listed only while it has active images: with none it disappears. */
  lemma ListingDropsEmpty(cats: seq<Category>, images: seq<ImageModel.Image>, c: Category)
    requires forall img :: img in images ==> img.categorie != c.id || !img.actif
    ensures forall e :: e in PublicListing(cats, images).categories ==> e.id != c.id
  {
    forall e | e in PublicListing(cats, images).categories
      ensures e.id != c.id
    {
      ListingMembers(cats, images, e);
      var c' :| c' in cats && c'.actif && e == EntryOf(c', images) && |e.images| > 0;
      var img := e.images[0];
      assert img in ActiveImages(images, c'.id);
    }
  }

  /** The listing is in order of `ordre`, then of name in character order. */
  lemma ListingOrdered(cats: seq<Category>, images: seq<ImageModel.Image>)
    ensures var r := PublicListing(cats, images).categories;
      forall i, j :: 0 <= i < j < |r| ==>
        r[i].ordre < r[j].ordre || (r[i].ordre == r[j].ordre && LexLe(StringKey(r[i].nom), StringKey(r[j].nom)))
  {
    var f := Filter(cats, (c: Category) => c.actif);
    var sorted := ActiveCategories(cats);
    assert sorted == SortBy(f, PublicOrder);
    SortBySorted(f, PublicOrder);
    var all := Entries(sorted, images);
    assert SortedBy(all, EntryOrder) by {
      forall i, j | 0 <= i < j < |all|
        ensures LexLe(EntryOrder(all[i]), EntryOrder(all[j]))
      {
        assert EntryOrder(all[i]) == PublicOrder(sorted[i]);
        assert EntryOrder(all[j]) == PublicOrder(sorted[j]);
      }
    }
    var r := Filter(all, HasImages);
    FilterSorted(all, HasImages, EntryOrder);
    forall i, j | 0 <= i < j < |r|
      ensures r[i].ordre < r[j].ordre || (r[i].ordre == r[j].ordre && LexLe(StringKey(r[i].nom), StringKey(r[j].nom)))
    {
      LexLeCons(r[i].ordre, StringKey(r[i].nom), r[j].ordre, StringKey(r[j].nom));
    }
  }

  /** `nombreImages` is the capped length: a category with more than IMAGE_CAP active images
      still reports IMAGE_CAP. */
  lemma NombreImagesIsCapped(c: Category, images: seq<ImageModel.Image>)
    requires Count(images, (img: ImageModel.Image) => img.categorie == c.id && img.actif) > IMAGE_CAP
    ensures EntryOf(c, images).nombreImages == IMAGE_CAP
  {
  }

  // ---------------------------------------------------------------------------
  // GET /:slug
  // ---------------------------------------------------------------------------

  /** The category found by its slug: its selected fields, all its active images and their
      number. */
  datatype Detail = Detail(
    id: nat,
    nom: string,
    slug: string,
    images: seq<ImageModel.Image>,
    nombreImages: nat)

  /** The `findOne` filter `{ slug, actif: true }`; the `lowercase` setter of the `slug` path
      also lowers the value the filter compares with. */
  predicate ShownAt(c: Category, slug: string) {
    c.slug == Lower(slug) && c.actif
  }

  /** `GET /:slug`: 404 unless an active category has that slug; otherwise the first such
      category with all its active images, uncapped. */
  function BySlug(cats: seq<Category>, images: seq<ImageModel.Image>, slug: string)
    : (reply: Reply<Detail>)
    ensures reply.status == NOT_FOUND <==> forall k :: 0 <= k < |cats| ==> !ShownAt(cats[k], slug)
    ensures reply.status == NOT_FOUND ==> reply.record.None?
    ensures reply.status != NOT_FOUND ==>
      && reply.status == OK && reply.record.Some?
      && var d := reply.record.value;
      && (exists c :: c in cats && ShownAt(c, slug) && d.id == c.id && d.nom == c.nom)
      && d.slug == Lower(slug) && d.nombreImages == |d.images|
      && d.images == ActiveImages(images, d.id)
      && forall img :: img in d.images <==> img in images && img.categorie == d.id && img.actif
  {
    match FindFirst(cats, (c: Category) => ShownAt(c, slug))
    case None => Reply(NOT_FOUND, None)
    case Some(i) =>
      var c := cats[i];
      var imgs := ActiveImages(images, c.id);
      assert c in cats;
      Reply(OK, Some(Detail(c.id, c.nom, c.slug, imgs, |imgs|)))
  }

  /** The page of a slug does not depend on the case of the letters in the path: an
      upper-case path finds the category stored under the lower-case slug. */
  lemma BySlugIgnoresCase(cats: seq<Category>, images: seq<ImageModel.Image>, slug: string)
    ensures BySlug(cats, images, slug) == BySlug(cats, images, Lower(slug))
  {
    LowerIdempotent(slug);
    var a := FindFirst(cats, (c: Category) => ShownAt(c, slug));
    var b := FindFirst(cats, (c: Category) => ShownAt(c, Lower(slug)));
    if a.Some? && b.Some? {
      assert !(a.value < b.value) && !(b.value < a.value);
    }
  }

  /** A category's listing entry shows the first IMAGE_CAP images of what its slug page
      shows, and all of them when there are at most IMAGE_CAP. */
  lemma ListingIsPrefixOfPage(cats: seq<Category>, images: seq<ImageModel.Image>, c: Category)
    requires BySlug(cats, images, c.slug).record.Some?
    requires BySlug(cats, images, c.slug).record.value.id == c.id
    ensures var d := BySlug(cats, images, c.slug).record.value;
      var e := EntryOf(c, images);
      && e.images == d.images[..e.nombreImages]
      && (|d.images| <= IMAGE_CAP ==> e.images == d.images)
  {
    EntryImages(c, images);
  }
}
