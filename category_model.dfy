/** The Category schema (models/Category.js): field defaults and the URL slug the pre-save hook
    derives from the name. The slug pipeline is lower-case, canonical decomposition (NFD), removal
    of the combining marks U+0300..U+036F, every character outside `[a-z0-9]` to '-', runs of
    '-' collapsed to one, then one '-' dropped at each end. */
module CategoryModel {
  import opened Common

  datatype Category = Category(
    id: nat,
    nom: string,
    slug: string,
    description: string,
    ordre: int,
    actif: bool,
    createdAt: int)

  // ---------------------------------------------------------------------------
  // The steps of the slug pipeline
  // ---------------------------------------------------------------------------

  predicate IsCombiningMark(c: char) {
    '\U{300}' <= c <= '\U{36F}'
  }

  /** The canonical decomposition of one character, for the accented lower-case Latin-1
      letters; every other character is its own decomposition. */
  function Decompose(c: char): (r: string)
    ensures 1 <= |r| <= 2
    ensures |r| == 2 ==> 'a' <= r[0] <= 'z' && IsCombiningMark(r[1])
    ensures c as int < 0xC0 ==> r == [c]
  {
    var n := c as int;
    if 0xE0 <= n <= 0xE5 then ['a', [0x300, 0x301, 0x302, 0x303, 0x308, 0x30A][n - 0xE0] as char]
    else if n == 0xE7 then ['c', '\U{327}']
    else if 0xE8 <= n <= 0xEB then ['e', [0x300, 0x301, 0x302, 0x308][n - 0xE8] as char]
    else if 0xEC <= n <= 0xEF then ['i', [0x300, 0x301, 0x302, 0x308][n - 0xEC] as char]
    else if n == 0xF1 then ['n', '\U{303}']
    else if 0xF2 <= n <= 0xF6 then ['o', [0x300, 0x301, 0x302, 0x303, 0x308][n - 0xF2] as char]
    else if 0xF9 <= n <= 0xFC then ['u', [0x300, 0x301, 0x302, 0x308][n - 0xF9] as char]
    else if n == 0xFD then ['y', '\U{301}']
    else if n == 0xFF then ['y', '\U{308}']
    else [c]
  }

  /** `normalize('NFD')`, character by character. */
  function Nfd(s: string): string {
    if s == [] then [] else Decompose(s[0]) + Nfd(s[1..])
  }

  /** Removal of the combining diacritical marks U+0300..U+036F. */
  function StripMarks(s: string): string {
    if s == [] then []
    else if IsCombiningMark(s[0]) then StripMarks(s[1..])
    else [s[0]] + StripMarks(s[1..])
  }

  predicate IsSlugAlnum(c: char) {
    ('a' <= c <= 'z') || ('0' <= c <= '9')
  }

  predicate IsSlugChar(c: char) {
    IsSlugAlnum(c) || c == '-'
  }

  /** `replace(/[^a-z0-9]/g, '-')`. */
  function HyphenateOthers(s: string): (r: string)
    ensures |r| == |s|
    ensures forall i :: 0 <= i < |s| ==> r[i] == (if IsSlugAlnum(s[i]) then s[i] else '-')
  {
    if s == [] then [] else [if IsSlugAlnum(s[0]) then s[0] else '-'] + HyphenateOthers(s[1..])
  }

  /** `replace(/-+/g, '-')`: of every run of hyphens only the last one is kept. */
  function CollapseHyphens(s: string): string {
    if |s| < 2 then s
    else if s[0] == '-' && s[1] == '-' then CollapseHyphens(s[1..])
    else [s[0]] + CollapseHyphens(s[1..])
  }

  /** `replace(/^-|-$/g, '')`: at most one hyphen goes at each end. */
  function TrimHyphens(s: string): string {
    var t := if |s| > 0 && s[0] == '-' then s[1..] else s;
    if |t| > 0 && t[|t| - 1] == '-' then t[..|t| - 1] else t
  }

  predicate NoDoubleHyphen(s: string) {
    forall i :: 0 <= i < |s| - 1 ==> !(s[i] == '-' && s[i + 1] == '-')
  }

  /** What a well-formed slug looks like. */
  predicate IsSlug(s: string) {
    && (forall i :: 0 <= i < |s| ==> IsSlugChar(s[i]))
    && NoDoubleHyphen(s)
    && (s == [] || (s[0] != '-' && s[|s| - 1] != '-'))
  }

  /** The slug the pre-save hook derives from a category name. */
  function Slug(nom: string): (r: string)
    ensures IsSlug(r)
  {
    var s := CollapseHyphens(HyphenateOthers(StripMarks(Nfd(Lower(nom)))));
    CollapsedIsClean(HyphenateOthers(StripMarks(Nfd(Lower(nom)))));
    TrimHyphensIsSlug(s);
    TrimHyphens(s)
  }

  // ---------------------------------------------------------------------------
  // Why the result is a slug
  // ---------------------------------------------------------------------------

  lemma {:induction false} CollapseHead(s: string)
    requires |s| > 0
    ensures |CollapseHyphens(s)| > 0 && CollapseHyphens(s)[0] == s[0]
    decreases |s|
  {
    if |s| >= 2 && s[0] == '-' && s[1] == '-' {
      CollapseHead(s[1..]);
    }
  }

  /** Collapsing keeps only characters that were there and leaves no two hyphens side by side. */
  lemma {:induction false} CollapsedIsClean(s: string)
    requires forall i :: 0 <= i < |s| ==> IsSlugChar(s[i])
    ensures forall i :: 0 <= i < |CollapseHyphens(s)| ==> IsSlugChar(CollapseHyphens(s)[i])
    ensures NoDoubleHyphen(CollapseHyphens(s))
    decreases |s|
  {
    if |s| >= 2 {
      CollapsedIsClean(s[1..]);
      if !(s[0] == '-' && s[1] == '-') {
        CollapseHead(s[1..]);
      }
    }
  }

  lemma TrimHyphensIsSlug(s: string)
    requires forall i :: 0 <= i < |s| ==> IsSlugChar(s[i])
    requires NoDoubleHyphen(s)
    ensures IsSlug(TrimHyphens(s))
  {
    var t := if |s| > 0 && s[0] == '-' then s[1..] else s;
    assert |t| > 0 ==> t[0] != '-';
    assert NoDoubleHyphen(t);
  }

  // ---------------------------------------------------------------------------
  // Idempotence: every step leaves a slug alone
  // ---------------------------------------------------------------------------

  lemma LowerKeepsSlug(s: string)
    requires forall i :: 0 <= i < |s| ==> IsSlugChar(s[i])
    ensures Lower(s) == s
  {
  }

  lemma {:induction false} NfdKeepsSlug(s: string)
    requires forall i :: 0 <= i < |s| ==> IsSlugChar(s[i])
    ensures Nfd(s) == s
    decreases |s|
  {
    if s != [] {
      NfdKeepsSlug(s[1..]);
    }
  }

  lemma {:induction false} StripMarksKeepsSlug(s: string)
    requires forall i :: 0 <= i < |s| ==> IsSlugChar(s[i])
    ensures StripMarks(s) == s
    decreases |s|
  {
    if s != [] {
      StripMarksKeepsSlug(s[1..]);
    }
  }

  lemma {:induction false} CollapseKeepsSlug(s: string)
    requires NoDoubleHyphen(s)
    ensures CollapseHyphens(s) == s
    decreases |s|
  {
    if |s| >= 2 {
      CollapseKeepsSlug(s[1..]);
    }
  }

  /** Slugging a slug gives it back unchanged. */
  lemma SlugIdempotent(nom: string)
    ensures Slug(Slug(nom)) == Slug(nom)
  {
    var s := Slug(nom);
    LowerKeepsSlug(s);
    NfdKeepsSlug(s);
    StripMarksKeepsSlug(s);
    assert HyphenateOthers(s) == s;
    CollapseKeepsSlug(s);
  }

  /** The accent of "é" (U+00E9) is dropped: its slug is "e". */
  lemma SlugDropsAccent()
    ensures Slug("\U{E9}") == "e"
  {
    assert Lower("\U{E9}") == "\U{E9}";
    assert Nfd("\U{E9}") == "e\U{301}";
    assert StripMarks("e\U{301}") == "e";
    assert HyphenateOthers("e") == "e";
  }

  /** A capital with an accent is lowered before decomposition: "É" (U+00C9) also gives "e";
      a name made only of punctuation gives the empty slug. */
  lemma SlugExamples()
    ensures Slug("\U{C9}") == "e"
    ensures Slug("!?") == ""
  {
    assert Lower("\U{C9}") == "\U{E9}";
    assert Nfd("\U{E9}") == "e\U{301}";
    assert StripMarks("e\U{301}") == "e";
    assert HyphenateOthers("e") == "e";
    assert Lower("!?") == "!?";
    assert Nfd("!?") == "!?";
    assert StripMarks("!?") == "!?";
    assert HyphenateOthers("!?") == "--";
    assert CollapseHyphens("--") == "-";
  }

  // ---------------------------------------------------------------------------
  // The document: defaults and the pre-save hook
  // ---------------------------------------------------------------------------

  /** A category as `Category.create` stores it: the given name and order, an empty
      description, active, and the slug of the name (the name of a new document counts as
      modified, so the hook runs). */
  function NewCategory(id: nat, nom: string, ordre: int, now: int): (c: Category)
    ensures c.description == "" && c.actif && c.ordre == ordre && c.nom == nom
    ensures IsSlug(c.slug) && c.slug == Slug(nom)
  {
    Category(id, nom, Slug(nom), "", ordre, true, now)
  }

  /** The pre-save hook: the slug is recomputed from the name only when the name was modified. */
  function PreSave(c: Category, nomModified: bool): (r: Category)
    ensures nomModified ==> r.slug == Slug(c.nom)
    ensures !nomModified ==> r == c
    ensures r == c.(slug := r.slug)
  {
    if nomModified then c.(slug := Slug(c.nom)) else c
  }

  // ---------------------------------------------------------------------------
  // The collection
  // ---------------------------------------------------------------------------

  /** The category with the given id (`findById`). */
  function IndexOf(docs: seq<Category>, id: nat): (r: Option<nat>)
    ensures r.Some? ==> r.value < |docs| && docs[r.value].id == id
    ensures r.None? ==> forall k :: 0 <= k < |docs| ==> docs[k].id != id
  {
    FindFirst(docs, (c: Category) => c.id == id)
  }

  /** The unique indexes: ids, names and slugs each occur once. */
  predicate Unique(docs: seq<Category>) {
    forall i, j :: 0 <= i < j < |docs| ==>
      docs[i].id != docs[j].id && docs[i].nom != docs[j].nom && docs[i].slug != docs[j].slug
  }

  /** What every stored category satisfies: an id below the next one and a non-empty name
      (the validator). */
  predicate AllStored(docs: seq<Category>, nextId: nat) {
    forall i :: 0 <= i < |docs| ==> docs[i].id < nextId && docs[i].nom != ""
  }

  /** The slug is the slug of the name, as the pre-save hook leaves it. */
  predicate Slugged(c: Category) {
    c.slug == Slug(c.nom)
  }

  predicate AllSlugged(docs: seq<Category>) {
    forall i :: 0 <= i < |docs| ==> Slugged(docs[i])
  }

  /** Appending a category with a name, whose id, name and slug are all new, keeps the
      collection invariant. */
  lemma StoredAppend(docs: seq<Category>, nextId: nat, c: Category)
    requires Unique(docs) && AllStored(docs, nextId)
    requires c.id == nextId && c.nom != ""
    requires forall k :: 0 <= k < |docs| ==> docs[k].nom != c.nom && docs[k].slug != c.slug
    ensures Unique(docs + [c]) && AllStored(docs + [c], nextId + 1)
  {
  }

  /** Replacing a category by one with the same id and a name, whose name and slug clash with
      no other category, keeps the invariant. */
  lemma StoredReplace(docs: seq<Category>, nextId: nat, i: nat, c: Category)
    requires Unique(docs) && AllStored(docs, nextId) && i < |docs|
    requires c.id == docs[i].id && c.nom != ""
    requires forall k :: 0 <= k < |docs| && docs[k].id != c.id ==>
      docs[k].nom != c.nom && docs[k].slug != c.slug
    ensures Unique(docs[i := c]) && AllStored(docs[i := c], nextId)
  {
  }

  lemma StoredRemove(docs: seq<Category>, nextId: nat, i: nat)
    requires Unique(docs) && AllStored(docs, nextId) && i < |docs|
    ensures Unique(RemoveAt(docs, i)) && AllStored(RemoveAt(docs, i), nextId)
  {
  }

  /** The `categories` collection. */
  class CategoryCollection {
    var docs: seq<Category>
    var nextId: nat

    ghost predicate Valid()
      reads this
    {
      Unique(docs) && AllStored(docs, nextId)
    }

    constructor ()
      ensures Valid() && docs == [] && nextId == 0
    {
      docs := [];
      nextId := 0;
    }
  }
}
