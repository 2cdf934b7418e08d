/** The Image (product) schema (models/image.js): the currency enum, the required fields, and
    the two display virtuals `prixFormate` and `dimensionsFormatees`. Prices and dimensions are
    integers here. */
module ImageModel {
  import opened Common
  import opened Sorting

  datatype Devise = FCFA | EUR | USD

  function DeviseCode(d: Devise): string {
    match d
    case FCFA => "FCFA"
    case EUR => "EUR"
    case USD => "USD"
  }

  /** The `devise` enum: exactly the three codes are accepted. */
  function ParseDevise(s: string): (r: Option<Devise>)
    ensures r.Some? ==> DeviseCode(r.value) == s
    ensures r.None? <==> s != "FCFA" && s != "EUR" && s != "USD"
  {
    if s == "FCFA" then Some(FCFA) else if s == "EUR" then Some(EUR)
    else if s == "USD" then Some(USD) else None
  }

  /** Length, width and height in centimetres; `None` is the schema's `null` default. */
  datatype Dimensions = Dimensions(longueur: Option<int>, largeur: Option<int>, hauteur: Option<int>)

  const NO_DIMENSIONS := Dimensions(None, None, None)

  datatype Image = Image(
    id: nat,
    url: string,
    publicId: string,
    nom: string,
    prix: Option<int>,
    devise: Option<Devise>,
    description: string,
    enStock: bool,
    quantite: int,
    dimensions: Option<Dimensions>,
    materiau: string,
    categorie: nat,
    ordre: int,
    actif: bool,
    createdAt: int)

  /** What the schema validator checks on save: `url` and `publicId` are required, so neither may
      be empty (`categorie`, also required, is always present in this model). */
  predicate SchemaValid(img: Image) {
    img.url != "" && img.publicId != ""
  }

  // ---------------------------------------------------------------------------
  // prixFormate
  // ---------------------------------------------------------------------------

  const PRIX_SUR_DEMANDE := "Prix sur demande"

  /** The currency the label shows: the stored one, FCFA when none is stored. */
  function LabelDevise(img: Image): Devise {
    if img.devise.Some? then img.devise.value else FCFA
  }

  /** The price is shown only when it is present and not zero. */
  predicate HasPrice(img: Image) {
    img.prix.Some? && img.prix.value != 0
  }

  /** The `prixFormate` virtual: the fixed text when there is no price, otherwise the number,
      a space and the currency code. */
  function PrixFormate(img: Image): (r: string)
    ensures r == PRIX_SUR_DEMANDE <==> !HasPrice(img)
  {
    if img.prix.None? || img.prix.value == 0 then PRIX_SUR_DEMANDE
    else
      var r := IntString(img.prix.value) + " " + DeviseCode(LabelDevise(img));
      assert r[|r| - 1] != 'e';
      r
  }

  /** A priced label carries its price and currency: the code stands after the last space,
      defaulting to FCFA, and the text before that space reads back as the price. */
  lemma PrixFormateRoundTrip(img: Image)
    requires HasPrice(img)
    ensures var r, code := PrixFormate(img), DeviseCode(LabelDevise(img));
      && |r| > |code| + 1
      && r[|r| - |code|..] == code
      && r[|r| - |code| - 1] == ' '
      && r[..|r| - |code| - 1] == IntString(img.prix.value)
      && ParseInt(r[..|r| - |code| - 1]) == img.prix.value
  {
    var r, code := PrixFormate(img), DeviseCode(LabelDevise(img));
    assert r[..|r| - |code| - 1] == IntString(img.prix.value);
    IntStringRoundTrip(img.prix.value);
  }

  lemma PrixFormateDefaultsToFcfa(img: Image)
    requires HasPrice(img) && img.devise.None?
    ensures PrixFormate(img) == IntString(img.prix.value) + " FCFA"
  {
  }

  // ---------------------------------------------------------------------------
  // dimensionsFormatees
  // ---------------------------------------------------------------------------

  /** One part of the dimensions label, `L30`, `l20` or `H10`, when that value is truthy. */
  function Part(letter: char, v: Option<int>): (r: seq<string>)
    ensures |r| == (if TruthyInt(v) then 1 else 0)
    ensures TruthyInt(v) ==> r[0] == [letter] + IntString(v.value)
  {
    if TruthyInt(v) then [[letter] + IntString(v.value)] else []
  }

  /** `parts.join(' x ')`. */
  function JoinX(parts: seq<string>): (r: string)
    ensures parts != [] ==> |r| >= |parts[0]| && r[..|parts[0]|] == parts[0]
  {
    if parts == [] then ""
    else if |parts| == 1 then parts[0]
    else parts[0] + " x " + JoinX(parts[1..])
  }

  /** The separator " x " starts at position `k` of `s`. */
  predicate SeparatorStarts(s: string, k: int) {
    0 <= k && k + 3 <= |s| && s[k] == ' ' && s[k + 1] == 'x' && s[k + 2] == ' '
  }

  /** The first position, from `from` on, where the separator starts. */
  function SeparatorFrom(s: string, from: nat): (r: Option<nat>)
    ensures r.Some? ==> from <= r.value && SeparatorStarts(s, r.value)
    ensures r.Some? ==> forall k :: from <= k < r.value ==> !SeparatorStarts(s, k)
    ensures r.None? ==> forall k :: from <= k ==> !SeparatorStarts(s, k)
    decreases |s| - from
  {
    if from + 3 > |s| then None
    else if SeparatorStarts(s, from) then Some(from)
    else SeparatorFrom(s, from + 1)
  }

  /** The first position where the separator starts. */
  function SeparatorAt(s: string): (r: Option<nat>)
    ensures r.Some? ==> SeparatorStarts(s, r.value)
    ensures r.Some? ==> forall k :: 0 <= k < r.value ==> !SeparatorStarts(s, k)
    ensures r.None? ==> forall k :: !SeparatorStarts(s, k)
  {
    SeparatorFrom(s, 0)
  }

  /** `split(' x ')`: the pieces between the separators. */
  function SplitX(s: string): (r: seq<string>)
    ensures |r| >= 1
    decreases |s|
  {
    match SeparatorAt(s)
    case None => [s]
    case Some(i) => [s[..i]] + SplitX(s[i + 3..])
  }

  predicate NoSpace(s: string) {
    forall i :: 0 <= i < |s| ==> s[i] != ' '
  }

  /** Splitting the joined label gives the parts back, when no part holds a space: the join
      puts exactly one " x " between consecutive parts and nothing else. */
  lemma {:induction false} SplitJoinX(parts: seq<string>)
    requires |parts| >= 1 && forall i :: 0 <= i < |parts| ==> NoSpace(parts[i])
    ensures SplitX(JoinX(parts)) == parts
    decreases |parts|
  {
    var p := parts[0];
    if |parts| == 1 {
      assert forall k :: !SeparatorStarts(p, k);
    } else {
      var rest := JoinX(parts[1..]);
      var s := p + " x " + rest;
      assert forall k :: 0 <= k < |p| ==> !SeparatorStarts(s, k) by {
        forall k | 0 <= k < |p| ensures !SeparatorStarts(s, k) {
          assert s[k] == p[k];
        }
      }
      assert SeparatorStarts(s, |p|);
      assert SeparatorAt(s) == Some(|p|);
      assert s[..|p|] == p && s[|p| + 3..] == rest;
      SplitJoinX(parts[1..]);
      assert [p] + parts[1..] == parts;
    }
  }

  predicate AnyDimension(d: Dimensions) {
    TruthyInt(d.longueur) || TruthyInt(d.largeur) || TruthyInt(d.hauteur)
  }

  /** The `dimensionsFormatees` virtual: null without dimensions or when all three are falsy;
      otherwise the truthy parts in the order length, width, height, joined by " x ", then
      " cm". */
  function DimensionsFormatees(img: Image): (r: Option<string>)
    ensures r.None? <==> img.dimensions.None? || !AnyDimension(img.dimensions.value)
    ensures r.Some? ==> |r.value| >= 4 && r.value[|r.value| - 3..] == " cm"
    ensures r.Some? && TruthyInt(img.dimensions.value.longueur) ==> r.value[0] == 'L'
    ensures r.Some? && !TruthyInt(img.dimensions.value.longueur) ==>
      (TruthyInt(img.dimensions.value.largeur) ==> r.value[0] == 'l')
    ensures r.Some? && !TruthyInt(img.dimensions.value.longueur) ==>
      (!TruthyInt(img.dimensions.value.largeur) ==> r.value[0] == 'H')
  {
    if img.dimensions.None? then None
    else
      var d := img.dimensions.value;
      if !AnyDimension(d) then None
      else
        var parts := Part('L', d.longueur) + Part('l', d.largeur) + Part('H', d.hauteur);
        assert parts != [] && |parts[0]| >= 1;
        Some(JoinX(parts) + " cm")
  }

  /** The label is made of exactly the truthy parts, `L`, `l`, `H` in that order, each with
      its letter and value: splitting what precedes " cm" on " x " gives them back. */
  lemma DimensionsParts(img: Image)
    requires img.dimensions.Some? && AnyDimension(img.dimensions.value)
    ensures var d := img.dimensions.value;
      var r := DimensionsFormatees(img);
      && r.Some? && |r.value| >= 3
      && r.value[|r.value| - 3..] == " cm"
      && SplitX(r.value[..|r.value| - 3]) ==
           Part('L', d.longueur) + Part('l', d.largeur) + Part('H', d.hauteur)
  {
    var d := img.dimensions.value;
    var parts := Part('L', d.longueur) + Part('l', d.largeur) + Part('H', d.hauteur);
    forall i | 0 <= i < |parts|
      ensures NoSpace(parts[i])
    {
      PartNoSpace('L', d.longueur);
      PartNoSpace('l', d.largeur);
      PartNoSpace('H', d.hauteur);
    }
    SplitJoinX(parts);
    var text := JoinX(parts) + " cm";
    assert text[..|text| - 3] == JoinX(parts);
  }

  lemma PartNoSpace(letter: char, v: Option<int>)
    requires letter != ' '
    ensures forall p :: p in Part(letter, v) ==> NoSpace(p)
  {
    if TruthyInt(v) {
      var p := [letter] + IntString(v.value);
      assert forall i :: 1 <= i < |p| ==> p[i] == IntString(v.value)[i - 1];
    }
  }

  /** Falsy values are skipped without leaving a separator behind. */
  lemma DimensionsSkipFalsy(img: Image)
    requires img.dimensions == Some(Dimensions(Some(30), Some(0), Some(10)))
    ensures DimensionsFormatees(img) == Some("L30 x H10 cm")
  {
    assert DigitChar(0) == '0' && DigitChar(1) == '1' && DigitChar(3) == '3';
    assert NatString(30) == NatString(3) + [DigitChar(0)] == "30";
    assert NatString(10) == NatString(1) + [DigitChar(0)] == "10";
    assert IntString(30) == "30" && IntString(10) == "10";
    assert ['L'] + "30" == "L30" && ['H'] + "10" == "H10";
    assert Part('L', Some(30)) == ["L30"];
    assert Part('l', Some(0)) == [];
    assert Part('H', Some(10)) == ["H10"];
    var parts := Part('L', Some(30)) + Part('l', Some(0)) + Part('H', Some(10));
    assert parts == ["L30", "H10"];
    assert JoinX(parts) == "L30" + " x " + JoinX(["H10"]) == "L30 x H10";
    assert "L30 x H10" + " cm" == "L30 x H10 cm";
  }

  /** A single truthy value gives a label without separator; all three absent give null. */
  lemma DimensionsSingleOrNone(img: Image)
    ensures img.dimensions == Some(Dimensions(None, Some(20), None))
      ==> DimensionsFormatees(img) == Some("l20 cm")
    ensures img.dimensions == Some(NO_DIMENSIONS) ==> DimensionsFormatees(img) == None
  {
    assert DigitChar(0) == '0' && DigitChar(2) == '2';
    assert NatString(20) == NatString(2) + [DigitChar(0)] == "20";
    assert IntString(20) == "20";
    assert ['l'] + "20" == "l20";
    assert Part('l', Some(20)) == ["l20"];
    var parts := Part('L', None) + Part('l', Some(20)) + Part('H', None);
    assert parts == ["l20"];
    assert JoinX(parts) + " cm" == "l20 cm";
  }

  // ---------------------------------------------------------------------------
  // The collection
  // ---------------------------------------------------------------------------

  /** Sort key of `.sort({ ordre: 1, createdAt: -1 })`. */
  function DisplayOrder(img: Image): seq<int> {
    [img.ordre, -img.createdAt]
  }

  /** In a sequence sorted by DisplayOrder, `ordre` never decreases, and among equal `ordre`
      values the newer image comes first. */
  lemma DisplayOrderSorted(s: seq<Image>)
    requires SortedBy(s, DisplayOrder)
    ensures forall i, j :: 0 <= i < j < |s| ==>
      s[i].ordre < s[j].ordre || (s[i].ordre == s[j].ordre && s[i].createdAt >= s[j].createdAt)
  {
    forall i, j | 0 <= i < j < |s|
      ensures s[i].ordre < s[j].ordre || (s[i].ordre == s[j].ordre && s[i].createdAt >= s[j].createdAt)
    {
      assert LexLe(DisplayOrder(s[i]), DisplayOrder(s[j]));
      LexLePair(s[i].ordre, -s[i].createdAt, s[j].ordre, -s[j].createdAt);
    }
  }

  /** The image with the given id (`findById`). */
  function IndexOf(docs: seq<Image>, id: nat): (r: Option<nat>)
    ensures r.Some? ==> r.value < |docs| && docs[r.value].id == id
    ensures r.None? ==> forall k :: 0 <= k < |docs| ==> docs[k].id != id
  {
    FindFirst(docs, (img: Image) => img.id == id)
  }

  /** `Image.countDocuments({ categorie: id })`: the images of a category, active or not. */
  function ImageCount(docs: seq<Image>, categoryId: nat): (n: nat)
    ensures n == 0 <==> forall k :: 0 <= k < |docs| ==> docs[k].categorie != categoryId
  {
    Count(docs, (img: Image) => img.categorie == categoryId)
  }

  predicate UniqueIds(docs: seq<Image>) {
    forall i, j :: 0 <= i < j < |docs| ==> docs[i].id != docs[j].id
  }

  /** Every stored image passed the validator and has an id below the next one. */
  predicate AllStored(docs: seq<Image>, nextId: nat) {
    forall i :: 0 <= i < |docs| ==> docs[i].id < nextId && SchemaValid(docs[i])
  }

  lemma StoredAppend(docs: seq<Image>, nextId: nat, img: Image)
    requires UniqueIds(docs) && AllStored(docs, nextId)
    requires img.id == nextId && SchemaValid(img)
    ensures UniqueIds(docs + [img]) && AllStored(docs + [img], nextId + 1)
  {
  }

  lemma StoredReplace(docs: seq<Image>, nextId: nat, i: nat, img: Image)
    requires UniqueIds(docs) && AllStored(docs, nextId) && i < |docs|
    requires img.id == docs[i].id && SchemaValid(img)
    ensures UniqueIds(docs[i := img]) && AllStored(docs[i := img], nextId)
  {
  }

  lemma StoredRemove(docs: seq<Image>, nextId: nat, i: nat)
    requires UniqueIds(docs) && AllStored(docs, nextId) && i < |docs|
    ensures UniqueIds(RemoveAt(docs, i)) && AllStored(RemoveAt(docs, i), nextId)
  {
  }

  /** The `images` collection. */
  class ImageCollection {
    var docs: seq<Image>
    var nextId: nat

    ghost predicate Valid()
      reads this
    {
      UniqueIds(docs) && AllStored(docs, nextId)
    }

    constructor ()
      ensures Valid() && docs == [] && nextId == 0
    {
      docs := [];
      nextId := 0;
    }

    /** Stores a new image under the next id. */
    method Insert(img: Image)
      requires Valid() && img.id == nextId && SchemaValid(img)
      modifies this
      ensures Valid() && docs == old(docs) + [img] && nextId == old(nextId) + 1
    {
      StoredAppend(docs, nextId, img);
      docs := docs + [img];
      nextId := nextId + 1;
    }
  }
}
