/** The public review routes (controllers/reviewsController.js): the approved listing, creation
    with its one-minute rate limit, owner-checked edit and delete, and the like toggle. Each
    route is a method over the review collection; the record a route loads, changes and saves is
    written back into the collection. */
module ReviewsController {
  import opened Common
  import opened Sorting
  import opened ReviewModel

  /** At most this many reviews are listed. */
  const LISTING_LIMIT := 50

  /** A visitor may post again only when their last review is older than this. */
  const RATE_WINDOW_MS := 60000

  // ---------------------------------------------------------------------------
  // GET / : the approved reviews, newest first, at most 50
  // ---------------------------------------------------------------------------

  predicate IsApproved(r: Review) {
    r.status == Approved
  }

  /** Sort key of `.sort({ createdAt: -1 })`. */
  function NewestFirst(r: Review): seq<int> {
    [-r.createdAt]
  }

  lemma NewestFirstOrder(a: Review, b: Review)
    requires LexLe(NewestFirst(a), NewestFirst(b))
    ensures a.createdAt >= b.createdAt
  {
    assert NewestFirst(a)[1..] == [];
  }

  /** The listing: only approved reviews of the collection, at most 50. */
  function Listing(docs: seq<Review>): (r: seq<Review>)
    ensures |r| <= LISTING_LIMIT
    ensures forall i :: 0 <= i < |r| ==> r[i].status == Approved && r[i] in docs
  {
    var r := Take(SortBy(Filter(docs, IsApproved), NewestFirst), LISTING_LIMIT);
    assert forall i :: 0 <= i < |r| ==> r[i] in multiset(Filter(docs, IsApproved));
    r
  }

  /** The listing is newest first. */
  lemma ListingNewestFirst(docs: seq<Review>)
    ensures var r := Listing(docs);
      forall i, j :: 0 <= i < j < |r| ==> r[i].createdAt >= r[j].createdAt
  {
    var approved := Filter(docs, IsApproved);
    var sorted := SortBy(approved, NewestFirst);
    var r := Listing(docs);
    SortBySorted(approved, NewestFirst);
    TakeSorted(sorted, LISTING_LIMIT, NewestFirst);
    forall i, j | 0 <= i < j < |r|
      ensures r[i].createdAt >= r[j].createdAt
    {
      NewestFirstOrder(r[i], r[j]);
    }
  }

  /** With at most 50 approved reviews, every one of them is listed. */
  lemma ListingComplete(docs: seq<Review>)
    requires Count(docs, IsApproved) <= LISTING_LIMIT
    ensures forall x :: x in docs && x.status == Approved ==> x in Listing(docs)
  {
    var approved := Filter(docs, IsApproved);
    var sorted := SortBy(approved, NewestFirst);
    FilterCount(docs, IsApproved);
    assert Listing(docs) == sorted;
    forall x | x in docs && x.status == Approved
      ensures x in sorted
    {
      assert x in multiset(sorted);
    }
  }

  /** The listing is the newest approved reviews: none left out is newer than one listed. */
  lemma ListingKeepsNewest(docs: seq<Review>, x: Review, i: nat)
    requires x in docs && x.status == Approved && x !in Listing(docs)
    requires i < |Listing(docs)|
    ensures Listing(docs)[i].createdAt >= x.createdAt
  {
    var approved := Filter(docs, IsApproved);
    var sorted := SortBy(approved, NewestFirst);
    var r := Listing(docs);
    SortBySorted(approved, NewestFirst);
    assert x in multiset(sorted);
    var k :| 0 <= k < |sorted| && sorted[k] == x;
    assert r[i] == sorted[i];
    NewestFirstOrder(sorted[i], sorted[k]);
  }

  // ---------------------------------------------------------------------------
  // POST / : creation
  // ---------------------------------------------------------------------------

  /** Some review of this visitor was created at or after `now - 60000`. */
  predicate HasRecent(docs: seq<Review>, visitorId: string, now: int) {
    exists i :: 0 <= i < |docs| && docs[i].visitorId == visitorId
      && docs[i].createdAt >= now - RATE_WINDOW_MS
  }

  /** The four fields the route checks itself; `photo` is left to the schema. */
  predicate CreateFieldsPresent(visitorId: Option<string>, nom: Option<string>,
                                prenom: Option<string>, message: Option<string>) {
    Truthy(visitorId) && Truthy(nom) && Truthy(prenom) && Truthy(message)
  }

  method Create(coll: ReviewCollection, visitorId: Option<string>, nom: Option<string>,
                prenom: Option<string>, photo: Option<string>, message: Option<string>, now: int)
    returns (reply: Reply<Review>)
    requires coll.Valid()
    modifies coll
    ensures coll.Valid()
    ensures reply.status == BAD_REQUEST <==> !CreateFieldsPresent(visitorId, nom, prenom, message)
    ensures reply.status == TOO_MANY_REQUESTS <==>
      CreateFieldsPresent(visitorId, nom, prenom, message)
      && HasRecent(old(coll.docs), visitorId.value, now)
    ensures reply.status == CREATED <==>
      && CreateFieldsPresent(visitorId, nom, prenom, message)
      && !HasRecent(old(coll.docs), visitorId.value, now)
      && SchemaValid(NewReview(old(coll.nextId), visitorId.value, nom.value, prenom.value,
                               photo, message.value, Approved, now))
    ensures reply.status == CREATED ==>
      var r := NewReview(old(coll.nextId), visitorId.value, nom.value, prenom.value,
                         photo, message.value, Approved, now);
      && reply.record == Some(r)
      && coll.docs == old(coll.docs) + [r]
      && coll.nextId == old(coll.nextId) + 1
    ensures reply.status != CREATED ==>
      reply.status in {BAD_REQUEST, TOO_MANY_REQUESTS, SERVER_ERROR}
      && reply.record.None? && coll.docs == old(coll.docs) && coll.nextId == old(coll.nextId)
  {
    if !Truthy(visitorId) || !Truthy(nom) || !Truthy(prenom) || !Truthy(message) {
      return Reply(BAD_REQUEST, None);
    }
    var v := visitorId.value;
    var recent := FindFirst(coll.docs, (x: Review) => x.visitorId == v
                                                     && x.createdAt >= now - RATE_WINDOW_MS);
    if recent.Some? {
      return Reply(TOO_MANY_REQUESTS, None);
    }
    var review := NewReview(coll.nextId, v, nom.value, prenom.value, photo, message.value,
                            Approved, now);
    if !SchemaValid(review) {
      return Reply(SERVER_ERROR, None);
    }
    AppendKeepsIds(coll.docs, coll.nextId, review);
    coll.docs := coll.docs + [review];
    coll.nextId := coll.nextId + 1;
    reply := Reply(CREATED, Some(review));
  }

  /** Right after a review is stored, the same visitor is refused for the next 60 seconds, the
      60th included. */
  lemma RateLimitAfterCreate(docs: seq<Review>, r: Review, t: int)
    requires r.createdAt <= t <= r.createdAt + RATE_WINDOW_MS
    ensures HasRecent(docs + [r], r.visitorId, t)
  {
    var all := docs + [r];
    assert all[|docs|] == r;
  }

  /** A visitor whose reviews are all older than 60 seconds is not refused. */
  lemma NoRateLimitAfterWindow(docs: seq<Review>, visitorId: string, now: int)
    requires forall i :: 0 <= i < |docs| && docs[i].visitorId == visitorId ==>
                           docs[i].createdAt < now - RATE_WINDOW_MS
    ensures !HasRecent(docs, visitorId, now)
  {
  }

  // ---------------------------------------------------------------------------
  // PUT /:id and DELETE /:id : owner-checked edit and delete
  // ---------------------------------------------------------------------------

  /** `review.visitorId !== visitorId`: a missing id in the body never matches. */
  predicate IsOwner(r: Review, visitorId: Option<string>) {
    visitorId == Some(r.visitorId)
  }

  /** The edit: `message` (trimmed by its setter) and `photo` change only when the supplied
      value is truthy, and nothing else changes. */
  function Edited(r: Review, message: Option<string>, photo: Option<string>): (e: Review)
    ensures e == r.(message := e.message, photo := e.photo)
    ensures e.message == (if Truthy(message) then Trim(message.value) else r.message)
    ensures e.photo == (if Truthy(photo) then photo.value else r.photo)
    ensures !Truthy(message) && !Truthy(photo) ==> e == r
  {
    var e := if Truthy(message) then r.(message := Trim(message.value)) else r;
    if Truthy(photo) then e.(photo := photo.value) else e
  }

  method Edit(coll: ReviewCollection, id: nat, visitorId: Option<string>,
              message: Option<string>, photo: Option<string>)
    returns (reply: Reply<Review>)
    requires coll.Valid()
    modifies coll
    ensures coll.Valid() && coll.nextId == old(coll.nextId)
    ensures IndexOf(old(coll.docs), id).None? ==>
      reply == Reply(NOT_FOUND, None) && coll.docs == old(coll.docs)
    ensures IndexOf(old(coll.docs), id).Some? ==>
      var i := IndexOf(old(coll.docs), id).value;
      var e := Edited(old(coll.docs)[i], message, photo);
      && (!IsOwner(old(coll.docs)[i], visitorId) ==>
            reply == Reply(FORBIDDEN, None) && coll.docs == old(coll.docs))
      && (IsOwner(old(coll.docs)[i], visitorId) && !SchemaValid(e) ==>
            reply == Reply(SERVER_ERROR, None) && coll.docs == old(coll.docs))
      && (IsOwner(old(coll.docs)[i], visitorId) && SchemaValid(e) ==>
            reply == Reply(OK, Some(e)) && coll.docs == old(coll.docs)[i := e])
  {
    var found := IndexOf(coll.docs, id);
    if found.None? {
      return Reply(NOT_FOUND, None);
    }
    var i := found.value;
    var review := coll.docs[i];
    if Some(review.visitorId) != visitorId {
      return Reply(FORBIDDEN, None);
    }
    if Truthy(message) {
      review := review.(message := Trim(message.value));
    }
    if Truthy(photo) {
      review := review.(photo := photo.value);
    }
    if !SchemaValid(review) {
      return Reply(SERVER_ERROR, None);
    }
    coll.docs := coll.docs[i := review];
    reply := Reply(OK, Some(review));
  }

  method Delete(coll: ReviewCollection, id: nat, visitorId: Option<string>)
    returns (reply: Reply<Review>)
    requires coll.Valid()
    modifies coll
    ensures coll.Valid() && coll.nextId == old(coll.nextId) && reply.record.None?
    ensures IndexOf(old(coll.docs), id).None? ==>
      reply.status == NOT_FOUND && coll.docs == old(coll.docs)
    ensures IndexOf(old(coll.docs), id).Some? ==>
      var i := IndexOf(old(coll.docs), id).value;
      && (!IsOwner(old(coll.docs)[i], visitorId) ==>
            reply.status == FORBIDDEN && coll.docs == old(coll.docs))
      && (IsOwner(old(coll.docs)[i], visitorId) ==>
            reply.status == OK && coll.docs == RemoveAt(old(coll.docs), i))
  {
    var found := IndexOf(coll.docs, id);
    if found.None? {
      return Reply(NOT_FOUND, None);
    }
    var i := found.value;
    if Some(coll.docs[i].visitorId) != visitorId {
      return Reply(FORBIDDEN, None);
    }
    coll.docs := RemoveAt(coll.docs, i);
    reply := Reply(OK, None);
  }

  /** Once deleted, the id is gone: a later edit, delete or like answers 404. */
  lemma DeletedIsGone(docs: seq<Review>, id: nat)
    requires UniqueIds(docs) && IndexOf(docs, id).Some?
    ensures IndexOf(RemoveAt(docs, IndexOf(docs, id).value), id).None?
  {
    var i := IndexOf(docs, id).value;
    var r := RemoveAt(docs, i);
    forall k | 0 <= k < |r|
      ensures r[k].id != id
    {
      if k >= i {
        assert r[k] == docs[k + 1];
      }
    }
  }

  // ---------------------------------------------------------------------------
  // POST /:id/like : the like toggle
  // ---------------------------------------------------------------------------

  /** `likedBy.filter(id => id !== visitorId)` for a given visitor: every entry naming the
      visitor goes, the rest, null entries included, keeps its order. */
  function RemoveAll(s: seq<Option<string>>, v: string): (r: seq<Option<string>>)
    ensures |r| <= |s|
    ensures forall x :: x in r <==> x in s && x != Some(v)
    ensures Some(v) in s ==> |r| < |s|
  {
    if s == [] then []
    else if s[0] == Some(v) then RemoveAll(s[1..], v)
    else [s[0]] + RemoveAll(s[1..], v)
  }

  /** No visitor id occurs twice; null entries may repeat. */
  predicate DistinctIds(s: seq<Option<string>>) {
    forall i, j :: 0 <= i < j < |s| && s[i].Some? ==> s[i] != s[j]
  }

  /** In a list where ids do not repeat, the visitor occurs once, so removing it shortens the
      list by exactly one. */
  lemma {:induction false} RemoveAllDistinct(s: seq<Option<string>>, v: string)
    requires DistinctIds(s)
    ensures DistinctIds(RemoveAll(s, v))
    ensures |RemoveAll(s, v)| == if Some(v) in s then |s| - 1 else |s|
    decreases |s|
  {
    if s != [] {
      assert DistinctIds(s[1..]);
      RemoveAllDistinct(s[1..], v);
      if s[0] == Some(v) {
        assert Some(v) !in s[1..];
        RemoveAllAbsent(s[1..], v);
      } else {
        var t := RemoveAll(s[1..], v);
        assert s[0].Some? ==> s[0] !in t;
        assert Some(v) in s ==> Some(v) in s[1..];
        var r := [s[0]] + t;
        forall i, j | 0 <= i < j < |r| && r[i].Some?
          ensures r[i] != r[j]
        {
          if i == 0 {
            assert r[j] in t;
          } else {
            assert r[i] == t[i - 1] && r[j] == t[j - 1];
          }
        }
      }
    }
  }

  /** Removing a visitor who is not in the list leaves it unchanged. */
  lemma {:induction false} RemoveAllAbsent(s: seq<Option<string>>, v: string)
    requires Some(v) !in s
    ensures RemoveAll(s, v) == s
    decreases |s|
  {
    if s != [] {
      RemoveAllAbsent(s[1..], v);
    }
  }

  /** `likedBy.includes(visitorId)`. Mongoose's `includes` compares with `==`, so an absent
      visitor id (`undefined`) matches a null entry that an earlier anonymous like stored. */
  predicate HasLiked(r: Review, v: Option<string>) {
    v in r.likedBy
  }

  /** The toggle applied to a loaded review. A visitor already in `likedBy` is taken out: every
      entry naming a given id goes, while `filter(id => id !== undefined)` keeps the stored null
      entries, so an anonymous unlike leaves the list as it is. `likes` then drops by one,
      floored at 0. Otherwise the id, or a null entry when there is none, is appended and
      `likes` rises by one. Only these two fields change. */
  function Toggled(r: Review, v: Option<string>): (t: Review)
    ensures t == r.(likedBy := t.likedBy, likes := t.likes)
    ensures v in t.likedBy <==> v.None? || v !in r.likedBy
    ensures forall x :: x != v && x.Some? ==> (x in t.likedBy <==> x in r.likedBy)
    ensures HasLiked(r, v) ==> t.likes == (if r.likes >= 1 then r.likes - 1 else 0)
    ensures HasLiked(r, v) && v.None? ==> t.likedBy == r.likedBy
    ensures !HasLiked(r, v) ==> t.likedBy == r.likedBy + [v] && t.likes == r.likes + 1
    ensures r.likes >= 0 ==> t.likes >= 0
  {
    if HasLiked(r, v) then
      r.(likedBy := if v.Some? then RemoveAll(r.likedBy, v.value) else r.likedBy,
         likes := if r.likes - 1 >= 0 then r.likes - 1 else 0)
    else
      r.(likedBy := r.likedBy + [v], likes := r.likes + 1)
  }

  /** The counter agrees with the list and no visitor id is listed twice. */
  predicate LikesConsistent(r: Review) {
    DistinctIds(r.likedBy) && r.likes == |r.likedBy|
  }

  /** What every toggle keeps: no visitor id listed twice, and a counter between 0 and the
      length of the list. */
  predicate LikesBounded(r: Review) {
    DistinctIds(r.likedBy) && 0 <= r.likes <= |r.likedBy|
  }

  /** The toggle keeps the counter in step with the list, except for an anonymous request once
      a null entry is listed: that one lowers the counter and keeps the list. Every toggle keeps
      the counter within the list's length. */
  lemma ToggledKeepsConsistent(r: Review, v: Option<string>)
    ensures LikesConsistent(r) && (v.Some? || None !in r.likedBy) ==>
      LikesConsistent(Toggled(r, v))
    ensures LikesBounded(r) ==> LikesBounded(Toggled(r, v))
  {
    var t := Toggled(r, v);
    if v.Some? && DistinctIds(r.likedBy) {
      RemoveAllDistinct(r.likedBy, v.value);
    }
    if !HasLiked(r, v) && DistinctIds(r.likedBy) {
      forall i, j | 0 <= i < j < |t.likedBy| && t.likedBy[i].Some?
        ensures t.likedBy[i] != t.likedBy[j]
      {
        if j == |r.likedBy| {
          assert t.likedBy[i] in r.likedBy;
        }
      }
    }
  }

  /** Once a null entry is listed, an anonymous request answers `liked: false` and only lowers
      the counter: from `[null]` and 1 like it leaves `[null]` and 0 likes, and a counter that
      matched the list no longer does. */
  lemma AnonymousUnlike(r: Review)
    requires None in r.likedBy
    ensures HasLiked(r, None)
    ensures Toggled(r, None) == r.(likes := if r.likes >= 1 then r.likes - 1 else 0)
    ensures r.likes == |r.likedBy| ==> !LikesConsistent(Toggled(r, None))
  {
  }

  /** `k` toggles by the same caller, one after the other. */
  function Repeat(r: Review, v: Option<string>, k: nat): (t: Review)
    ensures t == r.(likedBy := t.likedBy, likes := t.likes)
    decreases k
  {
    if k == 0 then r else Repeat(Toggled(r, v), v, k - 1)
  }

  /** Once one anonymous like is stored, anonymous requests run the counter down to 0 and
      leave the list as it is, whoever else liked the review. */
  lemma {:induction false} AnonymousRunsDown(r: Review, k: nat)
    requires None in r.likedBy && r.likes >= 0
    ensures Repeat(r, None, k) == r.(likes := if r.likes >= k then r.likes - k else 0)
    decreases k
  {
    if k > 0 {
      var t := Toggled(r, None);
      assert t == r.(likes := if r.likes >= 1 then r.likes - 1 else 0);
      AnonymousRunsDown(t, k - 1);
    }
  }

  /** Two toggles by the same visitor restore that visitor's membership; starting from a review
      the visitor has not liked, they restore the review exactly. Without a visitor id, the
      first anonymous like stays listed: the next anonymous request takes the like back but
      keeps the null entry. */
  lemma ToggleTwice(r: Review, v: Option<string>)
    ensures v.Some? ==> (v in Toggled(Toggled(r, v), v).likedBy) == (v in r.likedBy)
    ensures v.Some? && v !in r.likedBy && r.likes >= 0 ==> Toggled(Toggled(r, v), v) == r
    ensures v.None? && None !in r.likedBy && r.likes >= 0 ==>
      Toggled(Toggled(r, v), v) == r.(likedBy := r.likedBy + [None])
    ensures v.None? && None in r.likedBy ==>
      Toggled(Toggled(r, v), v) == r.(likes := if r.likes >= 2 then r.likes - 2 else 0)
  {
    if v.Some? && v !in r.likedBy {
      var s := r.likedBy + [v];
      assert RemoveAll(s, v.value) == RemoveAll(r.likedBy, v.value) by {
        RemoveAllAppend(r.likedBy, v.value);
      }
      RemoveAllAbsent(r.likedBy, v.value);
    }
  }

  lemma {:induction false} RemoveAllAppend(s: seq<Option<string>>, v: string)
    ensures RemoveAll(s + [Some(v)], v) == RemoveAll(s, v)
    decreases |s|
  {
    if s == [] {
      assert [Some(v)][1..] == [];
    } else {
      assert (s + [Some(v)])[1..] == s[1..] + [Some(v)];
      RemoveAllAppend(s[1..], v);
    }
  }

  /** What the like route answers besides the review: whether the visitor now likes it. */
  datatype LikeReply = LikeReply(status: int, liked: bool, review: Option<Review>)

  method Like(coll: ReviewCollection, id: nat, visitorId: Option<string>) returns (reply: LikeReply)
    requires coll.Valid()
    modifies coll
    ensures coll.Valid() && coll.nextId == old(coll.nextId)
    ensures IndexOf(old(coll.docs), id).None? ==>
      reply.status == NOT_FOUND && reply.review.None? && coll.docs == old(coll.docs)
    ensures IndexOf(old(coll.docs), id).Some? ==>
      var i := IndexOf(old(coll.docs), id).value;
      var t := Toggled(old(coll.docs)[i], visitorId);
      && reply == LikeReply(OK, !HasLiked(old(coll.docs)[i], visitorId), Some(t))
      && coll.docs == old(coll.docs)[i := t]
  {
    var found := IndexOf(coll.docs, id);
    if found.None? {
      return LikeReply(NOT_FOUND, false, None);
    }
    var i := found.value;
    var review := coll.docs[i];
    var hasLiked := visitorId in review.likedBy;
    if hasLiked {
      // the filter keeps the stored null entries, which are not `undefined`
      if visitorId.Some? {
        review := review.(likedBy := RemoveAll(review.likedBy, visitorId.value));
      }
      review := review.(likes := if review.likes - 1 >= 0 then review.likes - 1 else 0);
    } else {
      review := review.(likedBy := review.likedBy + [visitorId]);
      review := review.(likes := review.likes + 1);
    }
    ReplaceKeepsIds(coll.docs, coll.nextId, i, review);
    coll.docs := coll.docs[i := review];
    reply := LikeReply(OK, !hasLiked, Some(review));
  }

  /** Every review of the collection keeps its counter in step with its list. */
  predicate AllConsistent(docs: seq<Review>) {
    forall i :: 0 <= i < |docs| ==> LikesConsistent(docs[i])
  }

  /** No route breaks that, but for the anonymous unlike: a new review starts at 0 likes and an
      empty list, an edit does not touch either, and a toggle keeps them in step unless it is
      anonymous with a null entry already listed. */
  lemma RoutesKeepConsistent(docs: seq<Review>, i: nat, r: Review, v: Option<string>,
                             message: Option<string>, photo: Option<string>)
    requires AllConsistent(docs) && i < |docs|
    requires r.likes == 0 && r.likedBy == []
    ensures AllConsistent(docs + [r])
    ensures AllConsistent(docs[i := Edited(docs[i], message, photo)])
    ensures v.Some? || None !in docs[i].likedBy ==> AllConsistent(docs[i := Toggled(docs[i], v)])
    ensures AllConsistent(RemoveAt(docs, i))
  {
    ToggledKeepsConsistent(docs[i], v);
  }

  /** Every review of the collection keeps its counter within its list's length. */
  predicate AllBounded(docs: seq<Review>) {
    forall i :: 0 <= i < |docs| ==> LikesBounded(docs[i])
  }

  /** No route, anonymous likes included, breaks the weaker bound. */
  lemma RoutesKeepBounded(docs: seq<Review>, i: nat, r: Review, v: Option<string>,
                          message: Option<string>, photo: Option<string>)
    requires AllBounded(docs) && i < |docs|
    requires r.likes == 0 && r.likedBy == []
    ensures AllBounded(docs + [r])
    ensures AllBounded(docs[i := Edited(docs[i], message, photo)])
    ensures AllBounded(docs[i := Toggled(docs[i], v)])
    ensures AllBounded(RemoveAt(docs, i))
  {
    ToggledKeepsConsistent(docs[i], v);
  }
}
