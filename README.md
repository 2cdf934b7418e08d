# Rony Hair 237 backend — a Dafny model of its core

This project models the business rules of the Rony Hair 237 shop backend, an Express and Mongoose
service. It stores hair-product categories and their product images, promotions (limited-stock
offers and raffles, "tombolas"), visitor reviews with likes, daily analytics buckets, and
administrator accounts. It also sends e-mail through the Brevo API. The properties proved are
the ones the routes and schemas promise.

There is one Dafny module per source file:

- Schemas:
  - `PromotionModel` (models/Promotion.js)
  - `CategoryModel` (models/Category.js)
  - `ImageModel` (models/image.js)
  - `ReviewModel` (models/Review.js)
  - `AnalyticsModel` (models/Analytics.js)
  - `AdminModel` (models/Admin.js)
- Route handlers:
  - `AdminPromotions`
  - `PublicPromotions`
  - `AdminCategories`
  - `AdminImages`
  - `PublicCategories`
  - `ReviewsController`
  - `AnalyticsRoutes`
  - `AdminController`
- Utilities:
  - the guard and token issuer `AdminAuth` (utils/adminAuth.js)
  - the mail helper `EmailConfig` (utils/emailConfig.js)
- Shared modules:
  - `Common`: `Option`, the status-and-record `Reply`, JavaScript truthiness and `||` defaults, `trim`, lower-casing, decimal rendering.
  - `Sorting`: a stable insertion sort on integer-sequence keys, which is what a Mongo `.sort` or `Array.prototype.sort` with a comparator gives.

How the running system is represented:

- **Collections.** Each Mongo collection is a class holding `docs: seq<Record>` and `nextId: nat`. Its `Valid()` states the invariants the schema and the routes keep: ids are distinct, every stored record passed validation, category slugs match their names, and admin passwords are hashed.
- **Routes.**
  - A route that changes a collection is a method with `modifies`. Its `ensures` give the reply (status and record) and the whole new `docs`, in terms of pure functions of the old state.
  - A read-only route is a function.
- **Ids** are natural numbers. A route parameter that must be cast to an id is a string; `AdminModel.CastId` casts it.
- **Time** is an integer number of milliseconds `now`. An analytics calendar day is the day number `now / 86400000`.
- **Foreign code is symbolic.**
  - A JSON Web Token is its payload signed with a key.
  - A bcrypt hash records the text it was computed from and its salt.
  - The Brevo HTTP call is a function parameter from (message, attempt) to the provider's answer.

Behaviours that the model keeps as the code has them:

- `dureeAffichage: 0` is stored as 10 (controllers/adminPromotions.js:114), and `quantite: 0` as 1 (controllers/adminImages.js:99). In both cases a falsy value takes the default.
- Promotion creation never compares the two dates. A promotion whose window ends before it starts is stored, and it is never active (`AdminPromotions.CreateIgnoresDateOrder`, `PromotionModel.InvertedWindowNeverActive`).
- The analytics bucket `date` is indexed but not unique (models/Analytics.js:4-8, 46). The routes read the first bucket of a day (`AnalyticsModel.DayIndex`), and the collection invariant does not assume one bucket per day.
- The category duplicate check ignores case only. A name that differs by an accent passes it, and then fails on the unique slug index (`AdminCategories.DuplicateCheckMissesSlugClash`).
- Two routers are mounted at the same prefix, and the category router comes first (app.js:34-35). So `PUT` and `DELETE /api/admin/categories/images/:imageId` are answered by controllers/adminCategories.js:210-254, not by the field-by-field versions in controllers/adminImages.js.
- The wait between e-mail attempts grows linearly (1000 ms times the attempt number), whatever the comment in the source says.

## Model

| member | source | states |
|---|---|---|
| PromotionModel.ParseType | models/Promotion.js:6-10 | the type enum accepts exactly "stock-limite" and "tombola" |
| PromotionModel.TrimAll | models/Promotion.js:55-60 | every gain is stored trimmed, in order, none added or dropped |
| PromotionModel.SchemaValid | models/Promotion.js:6-60 | the validator: a name non-empty once trimmed, and a category whenever the type is stock-limite |
| PromotionModel.EstActive | models/Promotion.js:80-83 | the `estActive` virtual: `actif` and `dateDebut <= now <= dateFin` |
| PromotionModel.EstActiveInclusive | models/Promotion.js:80-83 | an active promotion is active at both ends of its window and not one millisecond outside it |
| PromotionModel.InvertedWindowNeverActive | models/Promotion.js:80-83 | a window that ends before it starts is never active |
| PromotionModel.TempsRestant | models/Promotion.js:86-98 | the countdown is null exactly when `dateFin - now <= 0`; otherwise days >= 0, hours < 24, minutes < 60, seconds < 60 |
| PromotionModel.CountdownReconstruction | models/Promotion.js:92-97 | days·86400 + hours·3600 + minutes·60 + seconds equals the remaining whole seconds |
| PromotionModel.CountdownExamples | models/Promotion.js:88-97 | 90 061 000 ms gives (1,1,1,1); 1 to 999 ms gives (0,0,0,0), not null; a past end gives null |
| CategoryModel.Decompose | models/Category.js:40 | NFD of one character: an accented Latin-1 letter becomes its base letter and a combining mark, other characters stay |
| CategoryModel.HyphenateOthers | models/Category.js:42 | every character outside `[a-z0-9]` becomes a hyphen, position by position |
| CategoryModel.Slug | models/Category.js:38-44 | the slug has only `[a-z0-9-]`, no double hyphen, and no hyphen at either end |
| CategoryModel.CollapsedIsClean | models/Category.js:43 | collapsing hyphen runs leaves no two adjacent hyphens and no new character |
| CategoryModel.TrimHyphensIsSlug | models/Category.js:44 | trimming the edge hyphens of such a text gives a slug |
| CategoryModel.SlugIdempotent | models/Category.js:38-44 | the slug of a slug is that slug |
| CategoryModel.SlugDropsAccent | models/Category.js:40-41 | the combining accent goes: "é" gives "e" |
| CategoryModel.SlugExamples | models/Category.js:38-44 | "É" gives "e" and a name without letters or digits gives the empty slug |
| CategoryModel.NewCategory | models/Category.js:16-28 | a new category has the empty description, is active, keeps its order, and gets the slug of its name |
| CategoryModel.PreSave | models/Category.js:36-46 | the hook recomputes the slug only when the name was modified, and changes nothing else |
| ImageModel.ParseDevise | models/image.js:25-29 | the currency enum accepts exactly FCFA, EUR and USD |
| ImageModel.SchemaValid | models/image.js:5-13 | the validator: url and publicId are required, so neither is empty |
| ImageModel.PrixFormate | models/image.js:88-94 | the label is "Prix sur demande" exactly when the price is absent or 0 |
| ImageModel.PrixFormateRoundTrip | models/image.js:93 | otherwise the label is the price digits, one space, then the currency code, and the price can be read back from it |
| ImageModel.PrixFormateDefaultsToFcfa | models/image.js:93 | with no currency the label ends in " FCFA" |
| ImageModel.Part | models/image.js:104-106 | one dimension contributes its letter and value only when the value is truthy |
| ImageModel.JoinX | models/image.js:108 | `join(' x ')`: the join begins with the first part; what it holds in full is the SplitJoinX row |
| ImageModel.DimensionsFormatees | models/image.js:97-110 | null exactly when there are no dimensions or all three are falsy; otherwise the label ends in " cm" and starts with the first truthy part |
| ImageModel.SplitX | models/image.js:108 | `split(' x ')`, used to read a label back: at least one piece |
| ImageModel.SplitJoinX | models/image.js:108 | splitting the join of parts without spaces on " x " gives exactly those parts back, so the join is the parts, in order, with one " x " between neighbours |
| ImageModel.DimensionsParts | models/image.js:97-110 | with some truthy dimension, the label is the truthy parts `L`, `l`, `H` in that order, each its letter and value, joined by " x ", then " cm" |
| ImageModel.DimensionsSkipFalsy | models/image.js:104-109 | a zero width is skipped: (30, 0, 10) gives "L30 x H10 cm" |
| ImageModel.DimensionsSingleOrNone | models/image.js:99-109 | one part gives "l20 cm"; the empty object gives null |
| ImageModel.DisplayOrderSorted | controllers/adminImages.js:27-30 | a list sorted on the display key is by `ordre` ascending, then newest first |
| ImageModel.ImageCount | controllers/adminCategories.js:177 | the count is 0 exactly when no image references the category |
| ImageModel.ImageCollection.Insert | controllers/adminImages.js:90-103 | storing a valid image appends it and advances the id counter |
| ReviewModel.ParseStatus | models/Review.js:29-33 | the status enum accepts exactly pending, approved and rejected |
| ReviewModel.SchemaValid | models/Review.js:5-42 | the validator: required fields non-empty and the message at most 1000 UTF-16 code units |
| ReviewModel.NewReview | models/Review.js:5-42 | a new review has 0 likes and an empty `likedBy`; it passes the schema exactly when the required fields are present and the trimmed message has at most 1000 UTF-16 code units |
| ReviewModel.ReplaceKeepsIds | models/Review.js:5-42 | storing a schema-valid review in place of one with the same id keeps ids below the counter, unique, and every review schema-valid |
| ReviewModel.AstralMessageTooLong | models/Review.js:27 | 999 letters and one emoji are 1000 characters but 1001 code units, and the message is refused |
| Common.Utf16Length | models/Review.js:27 | the UTF-16 length: between the number of characters and twice it, equal to it exactly when no character lies beyond U+FFFF |
| AnalyticsModel.EmptyBucket | models/Analytics.js:3-16 | a new bucket has its day, zero counters and empty lists |
| AnalyticsModel.DayIndex | models/Analytics.js:4-8 | the bucket found for a day is the first one of that day, and none is found only when no bucket has it |
| AnalyticsModel.CastObjectId | models/Analytics.js:19-21 | the cast succeeds exactly on 24 hexadecimal digits, in either case, and gives a 24-digit lower-case text |
| AnalyticsModel.CastObjectIdText | models/Analytics.js:19-21 | a lower-case id text casts to itself; any cast lower-cases each digit |
| AnalyticsModel.StoredKey | models/Analytics.js:19-21 | an absent id stays absent; a present one is stored as the lower-case text of its cast |
| AnalyticsRoutes.VisitCountsOne | controllers/analyticsRoutes.js:101-117 | a visit raises the day's count by one and leaves every other day's count and the other counters alone |
| AnalyticsRoutes.Today | controllers/analyticsRoutes.js:103-104 | today's midnight, as the day number `now / DAY_MS` |
| AnalyticsRoutes.TodaySpan | controllers/analyticsRoutes.js:103-104 | today is the day whose span of 24 hours contains `now` |
| AnalyticsRoutes.AfterVisit | controllers/analyticsRoutes.js:106-110 | the upsert: one more visit on the first bucket of the day, or a new bucket with one visit |
| AnalyticsRoutes.Visite | controllers/analyticsRoutes.js:101-117 | the collection after the route is the one-visit update of today's first bucket, or a new bucket with one visit |
| AnalyticsRoutes.EntryIndex | controllers/analyticsRoutes.js:136-139 | the entry found has exactly the body string as its stored text; none is found only when no entry has it |
| AnalyticsRoutes.Bump | controllers/analyticsRoutes.js:136-161 | the found entry gains one, or an entry with count 1 and the cast id is pushed; none when that cast fails |
| AnalyticsRoutes.BumpChangesOneEntry | controllers/analyticsRoutes.js:136-161 | the bump fails exactly when the id matches no entry and does not cast; otherwise only the matching entry gains one, or one entry with count 1 and the lower-case cast id is appended |
| AnalyticsRoutes.BumpKeepsInvariant | controllers/analyticsRoutes.js:133-147 | a successful bump adds exactly one to the sum of the counts; it keeps ids distinct when the body gives the id in lower case |
| AnalyticsRoutes.UpperCaseIdRepeats | controllers/analyticsRoutes.js:136-146 | an upper-case id already counted misses the lower-case lookup and is pushed again: two entries for one id |
| AnalyticsRoutes.OrderKeepsCounts | controllers/analyticsRoutes.js:129-171 | after a successful order every bucket still has counts summing to `commandes`, whatever the case of the ids |
| AnalyticsRoutes.OrderKeepsConsistent | controllers/analyticsRoutes.js:129-171 | with both ids given in lower case, after a successful order every bucket has distinct ids in each list and counts summing to `commandes` |
| AnalyticsRoutes.OrderedConsistent | controllers/analyticsRoutes.js:131-163 | the update of an existing bucket fails exactly when an id to push does not cast; otherwise `commandes` rises by one and the counts still add up, and with lower-case ids no id repeats |
| AnalyticsRoutes.FirstOrderConsistent | controllers/analyticsRoutes.js:164-171 | for ids that cast, the created bucket has one order, no visit and one entry per list holding the stored ids, and is consistent |
| AnalyticsRoutes.AfterOrder | controllers/analyticsRoutes.js:129-171 | the update of the first bucket of the day, or a new bucket; none when an id to store does not cast |
| AnalyticsRoutes.BumpList | controllers/analyticsRoutes.js:136-161 | the in-place `findIndex`, `+= 1` or `push` on one list gives the bump, including its failure on an id that does not cast |
| AnalyticsRoutes.Commande | controllers/analyticsRoutes.js:122-179 | 500 with nothing stored when an id to store does not cast; otherwise 200 and the collection is the order update of today's first bucket, or gains a new bucket with one order |
| AnalyticsRoutes.OrderInto | controllers/analyticsRoutes.js:131-163 | the bucket at the given index takes one more order and the product and category tallies are bumped; a non-castable id to push gives 500 and nothing changes |
| AnalyticsRoutes.WindowBuckets | controllers/analyticsRoutes.js:11-17 | the query keeps exactly the buckets no older than 30 days |
| AnalyticsRoutes.InWindow | controllers/analyticsRoutes.js:11-16 | the filter `date >= thirtyDaysAgo`, on day starts |
| AnalyticsRoutes.Fetched | controllers/analyticsRoutes.js:15-19 | the fetched buckets are a permutation of the window |
| AnalyticsRoutes.FetchedAscending | controllers/analyticsRoutes.js:18 | they come in ascending date order |
| AnalyticsRoutes.RecentDaysFetched | controllers/analyticsRoutes.js:11-17 | each of the last 30 days has its bucket fetched when it has one |
| AnalyticsRoutes.RecentDayInWindow | controllers/analyticsRoutes.js:11-12 | the start of each of those days lies in the window |
| AnalyticsRoutes.ChartPoint | controllers/analyticsRoutes.js:30-38 | a day's point carries that day, and zeros when it has no bucket |
| AnalyticsRoutes.TotalsOverWindow | controllers/analyticsRoutes.js:42-43 | the totals are the sums over the whole window, whatever the order |
| AnalyticsRoutes.ProductLists | controllers/analyticsRoutes.js:47-48 | the product lists of the buckets, in bucket order |
| AnalyticsRoutes.CategoryLists | controllers/analyticsRoutes.js:64-65 | the category lists of the buckets, in bucket order |
| AnalyticsRoutes.FirstWithKeyAppend | controllers/analyticsRoutes.js:49-54 | appending an entry does not move an id's first occurrence |
| AnalyticsRoutes.Tallies | controllers/analyticsRoutes.js:46-56 | the map after every entry in order; what it holds is the TalliesMeaning row |
| AnalyticsRoutes.TalliesMeaning | controllers/analyticsRoutes.js:46-56 | the tally map holds one tally per id that occurs, in order of first occurrence, with the name of that occurrence and the sum of the id's counts |
| AnalyticsRoutes.KeyTotalAbsent | controllers/analyticsRoutes.js:49-53 | an id that never occurs totals 0 |
| AnalyticsRoutes.FirstMax | controllers/analyticsRoutes.js:58-60 | the first tally with the largest total |
| AnalyticsRoutes.SortHeadIsFirstMax | controllers/analyticsRoutes.js:58-60 | the stable sort by descending total puts that tally first |
| AnalyticsRoutes.Top | controllers/analyticsRoutes.js:58-60 | the head of the sort by descending total, or the sentinel; what it is is the TopMeaning row |
| AnalyticsRoutes.TopMeaning | controllers/analyticsRoutes.js:46-77 | the top entry is the sentinel with total 0 when no entry occurs; otherwise it has the largest per-id total, and ties go to the id seen first |
| AnalyticsRoutes.TallyStep | controllers/analyticsRoutes.js:49-54 | one `forEach` step adds the entry's count to its id's tally, or starts one |
| AnalyticsRoutes.TallyLists | controllers/analyticsRoutes.js:46-56 | the two nested loops build the tallies of all entries in order |
| AnalyticsRoutes.TallyList | controllers/analyticsRoutes.js:48-55 | the inner `forEach` over one list extends the tallies of the entries seen so far by that list |
| AnalyticsRoutes.BuildChart | controllers/analyticsRoutes.js:25-39 | the series has exactly 30 points, for today−29 up to today in order, each the day's point |
| AnalyticsRoutes.GetDashboard | controllers/analyticsRoutes.js:9-88 | the dashboard is the series, the two totals and the two top entries, over the fetched window |
| ReviewsController.Listing | controllers/reviewsController.js:14-16 | only approved reviews of the collection, at most 50 |
| ReviewsController.ListingNewestFirst | controllers/reviewsController.js:15 | the listing is newest first |
| ReviewsController.ListingComplete | controllers/reviewsController.js:14-16 | with at most 50 approved reviews, all of them are listed |
| ReviewsController.ListingKeepsNewest | controllers/reviewsController.js:14-16 | no approved review left out is newer than one listed |
| ReviewsController.HasRecent | controllers/reviewsController.js:48-51 | some review of the visitor was created no more than 60 s before `now` |
| ReviewsController.Create | controllers/reviewsController.js:35-69 | 400 for a missing field, then 429 when the visitor posted within 60 s (inclusive), then 500 when the schema refuses (message over 1000 UTF-16 code units once trimmed); otherwise an approved review with no likes is appended |
| ReviewsController.RateLimitAfterCreate | controllers/reviewsController.js:48-58 | right after a review is stored, the same visitor is refused for 60 s |
| ReviewsController.NoRateLimitAfterWindow | controllers/reviewsController.js:48-58 | a visitor whose reviews are all older than 60 s is not refused |
| ReviewsController.IsOwner | controllers/reviewsController.js:102 | the visitor id given is the review's; an absent one owns nothing |
| ReviewsController.Edited | controllers/reviewsController.js:110-111 | only `message` (trimmed) and `photo` change, each only when the value given is truthy |
| ReviewsController.Edit | controllers/reviewsController.js:89-113 | 404 for an unknown id, 403 for another visitor, 500 with nothing changed when the edited review fails the schema; otherwise the edited review replaces the stored one |
| ReviewsController.Delete | controllers/reviewsController.js:133-151 | 404 for an unknown id, 403 for another visitor; otherwise exactly that review is removed |
| ReviewsController.DeletedIsGone | controllers/reviewsController.js:138-151 | after a delete the id is unknown to every route |
| ReviewsController.RemoveAll | controllers/reviewsController.js:189 | every entry naming the visitor goes, the rest (null entries included) stays |
| ReviewsController.RemoveAllDistinct | controllers/reviewsController.js:189 | in a list where no id repeats, removing a present visitor shortens it by exactly one and keeps ids unrepeated |
| ReviewsController.RemoveAllAbsent | controllers/reviewsController.js:189 | removing an absent visitor changes nothing |
| ReviewsController.HasLiked | controllers/reviewsController.js:185 | `likedBy.includes(visitorId)` with Mongoose's loose `==`: a given id must be listed, and an absent one matches a null entry left by an earlier anonymous like |
| ReviewsController.Toggled | controllers/reviewsController.js:185-195 | a visitor who liked is removed (an anonymous caller removes nothing, since stored nulls are not `undefined`) and `likes` becomes max(0, likes−1); otherwise the id, or a null entry, is appended and `likes` rises by one; nothing else changes |
| ReviewsController.ToggledKeepsConsistent | controllers/reviewsController.js:185-195 | every toggle keeps ids distinct and 0 ≤ `likes` ≤ the list's length; it keeps `likes` equal to the length except for an anonymous request with a null entry already listed |
| ReviewsController.ToggleTwice | controllers/reviewsController.js:185-202 | for a given visitor, two toggles restore membership, and restore the review itself when the visitor had not liked it; without a visitor id, the first like leaves one null entry and the second takes the like back but keeps the entry |
| ReviewsController.AnonymousUnlike | controllers/reviewsController.js:185-190 | once a null entry is listed, an anonymous request counts as an unlike: the list stays, `likes` drops by one (floored at 0), and a counter that matched the list no longer does |
| ReviewsController.AnonymousRunsDown | controllers/reviewsController.js:185-197 | after one stored anonymous like, k anonymous requests leave the list as it is and the counter at max(0, likes − k) |
| ReviewsController.RemoveAllAppend | controllers/reviewsController.js:189-193 | removing a visitor just appended gives back the list without them |
| ReviewsController.Like | controllers/reviewsController.js:172-202 | 404 for an unknown id; otherwise the toggled review is stored, with or without a visitor id, and `liked` is the negation of the earlier loose membership |
| ReviewsController.RoutesKeepConsistent | controllers/reviewsController.js:60-69 | creation, edit, delete and every like but the anonymous one with a null entry listed keep each review's counter equal to its list's length, with no id listed twice |
| ReviewsController.RoutesKeepBounded | controllers/reviewsController.js:60-69 | creation, edit, delete and every like, anonymous ones included, keep each review's counter between 0 and its list's length, with no id listed twice |
| AdminPromotions.List | controllers/adminPromotions.js:14-18 | the listing holds every promotion |
| AdminPromotions.ListNewestFirst | controllers/adminPromotions.js:16 | newest first |
| AdminPromotions.Get | controllers/adminPromotions.js:37-49 | 404 exactly for an unknown id, otherwise the stored promotion |
| AdminPromotions.NewPromotion | controllers/adminPromotions.js:107-115 | the category is kept only for stock-limite, the trimmed gains only for tombola, and a falsy duration becomes 10 |
| AdminPromotions.NewPromotionGated | controllers/adminPromotions.js:81-115 | a promotion built from an accepted request follows the type gating |
| AdminPromotions.Create | controllers/adminPromotions.js:67-115 | 400 for a missing or falsy field (a date sent as the number 0 included, a date text never), a stock-limite without category or a tombola without gains; 404 for an unknown category; 500 for a type outside the enum or a name blank once trimmed; otherwise the new promotion is appended |
| AdminPromotions.EpochTruthiness | controllers/adminPromotions.js:73 | the falsy test is on the value sent: the number 0 is refused, the text of the epoch is accepted, and a text is refused only when empty |
| AdminPromotions.Insert | controllers/adminPromotions.js:106-127 | 201 exactly when the type is in the enum and the trimmed name is non-empty, and then the built promotion is appended; otherwise 500 and nothing changes |
| AdminPromotions.CreateIgnoresDateOrder | controllers/adminPromotions.js:73-115 | a window ending before it starts is accepted, and the promotion is never active |
| AdminPromotions.Updated | controllers/adminPromotions.js:149-155 | each supplied field is assigned (name and gains trimmed), gains only on a tombola; type and category never change |
| AdminPromotions.UpdatedStaysGated | controllers/adminPromotions.js:149-155 | an update keeps the type gating, and passes validation exactly when the name is not emptied |
| AdminPromotions.UpdatedIdempotent | controllers/adminPromotions.js:149-155 | the same body applied twice gives what it gives once |
| AdminPromotions.ApplyUpdate | controllers/adminPromotions.js:149-155 | the field-by-field assignments give the updated promotion |
| AdminPromotions.TrimAllIdempotent | models/Promotion.js:55-60 | trimming the gains twice trims nothing more |
| AdminPromotions.Update | controllers/adminPromotions.js:135-157 | 404 for an unknown id, 500 when validation fails, otherwise the updated promotion replaces the stored one |
| AdminPromotions.Delete | controllers/adminPromotions.js:177-188 | 404 for an unknown id, otherwise exactly that promotion is removed |
| AdminPromotions.DeletedIsGone | controllers/adminPromotions.js:177-188 | after a delete the id is unknown to every route |
| AdminPromotions.Toggled | controllers/adminPromotions.js:218 | `actif` flips and nothing else changes |
| AdminPromotions.ToggleFacts | controllers/adminPromotions.js:218 | toggling twice restores the promotion; a toggle keeps it valid; an inactive promotion is never active |
| AdminPromotions.Toggle | controllers/adminPromotions.js:207-219 | 404 for an unknown id, otherwise the toggled promotion replaces the stored one |
| PublicPromotions.InWindowIsEstActive | controllers/publicPromotions.js:17-21 | the query filter agrees with the `estActive` virtual (models/Promotion.js:82) at the same instant |
| PublicPromotions.Active | controllers/publicPromotions.js:12-24 | exactly the promotions in their window at `now` |
| PublicPromotions.Tombolas | controllers/publicPromotions.js:79-90 | exactly the tombolas in their window at `now` |
| PublicPromotions.ListingsNewestFirst | controllers/publicPromotions.js:24 | both listings are newest first |
| PublicPromotions.InWindow | controllers/publicPromotions.js:17-21 | the query filter `actif`, `dateDebut <= now`, `dateFin >= now` |
| PublicPromotions.TombolasWithinActive | controllers/publicPromotions.js:83-88 | the tombola listing holds exactly the tombolas of the active listing, each as often (equal multisets), so it is no longer than the active listing |
| PublicPromotions.ForCategory | controllers/publicPromotions.js:43-61 | an in-window stock-limite promotion of the category, or none with status 200, never 404 |
| PublicPromotions.ForCategoryIsFirst | controllers/publicPromotions.js:48-54 | the answer is the first stored match |
| AdminCategories.List | controllers/adminCategories.js:14-33 | every category exactly once, each with the number of images that reference it |
| AdminCategories.ListOrdered | controllers/adminCategories.js:16 | by `ordre`, newer first among equal orders |
| AdminCategories.Get | controllers/adminCategories.js:46-65 | 404 exactly for an unknown id, otherwise the category and its image count |
| AdminCategories.Create | controllers/adminCategories.js:79-112 | 400 for a blank name or a name equal to a stored one ignoring case; 500 on a slug clash; otherwise the trimmed name is stored with order 0 unless given |
| AdminCategories.DuplicateCheckMissesSlugClash | controllers/adminCategories.js:92-94 | "e" passes the duplicate check against a stored "É" but has the same slug |
| AdminCategories.Edited | controllers/adminCategories.js:140-145 | name only when not blank (trimmed), description trimmed, order and flag when supplied; the slug follows the name |
| AdminCategories.EditedStored | controllers/adminCategories.js:140-145 | an update never empties the name, keeps it trimmed and keeps the slug that of the name; an empty body changes nothing |
| AdminCategories.EditedName | controllers/adminCategories.js:140-145 | after an update the name and slug are the old ones, or the name is trimmed, not empty, and the slug is its slug |
| AdminCategories.RoutesKeepSlugs | controllers/adminCategories.js:103-187 | creation, update and delete keep every category's slug the slug of its name |
| AdminCategories.ApplyEdit | controllers/adminCategories.js:140-145 | the field-by-field assignments give the edited category |
| AdminCategories.Update | controllers/adminCategories.js:126-151 | 404 for an unknown id, 500 on a name or slug clash, otherwise the edited category replaces the stored one |
| AdminCategories.Delete | controllers/adminCategories.js:165-191 | 404 for an unknown id, 400 with the count while any image references it, otherwise exactly that category is removed |
| AdminCategories.DeleteLeavesNoOrphan | controllers/adminCategories.js:177-187 | a delete allowed by the count leaves no image pointing at the category |
| AdminCategories.Merged | controllers/adminCategories.js:222-224 | every supplied field is assigned; the save fails exactly for a currency outside the enum or an emptied url or publicId |
| AdminCategories.MergedIdempotent | controllers/adminCategories.js:222-224 | an empty body changes nothing, and a body applied twice gives what it gives once |
| AdminCategories.UpdateImage | controllers/adminCategories.js:210-231 | 404 for an unknown image, 500 when the save fails, otherwise the merged image replaces the stored one |
| AdminCategories.DeleteImage | controllers/adminCategories.js:236-254 | 404 for an unknown image, otherwise exactly that image is removed |
| AdminImages.ImagesOf | controllers/adminImages.js:14-42 | 404 exactly for an unknown category; otherwise a permutation of its images, active or not |
| AdminImages.ImagesOfOrdered | controllers/adminImages.js:27-30 | exactly the category's images, by `ordre` then newest first |
| AdminImages.CreateDevise | controllers/adminImages.js:96 | the currency given when truthy, FCFA otherwise |
| AdminImages.NewImage | controllers/adminImages.js:90-103 | falsy fields take the route's defaults, `enStock` defaults only when absent, and the image is valid and active |
| AdminImages.NewImageDefaults | controllers/adminImages.js:90-103 | a body with only url and publicId gives an in-stock, one-piece, active image at order 0 priced "Prix sur demande"; a quantity of 0 becomes 1 |
| AdminImages.Create | controllers/adminImages.js:55-109 | 400 without url or publicId, then 404 for an unknown category, then 500 for a bad currency; otherwise the new image is appended |
| AdminImages.LastIndexOf | controllers/adminImages.js:225-227 | the last position of an id in the list, none exactly when it is absent |
| AdminImages.Reordered | controllers/adminImages.js:225-226 | only `ordre` changes: to the last position of the image's id, and not at all for an image not named |
| AdminImages.ReorderedStep | controllers/adminImages.js:225-226 | one more id changes only the image with that id |
| AdminImages.ReorderedPosition | controllers/adminImages.js:225-226 | without repeated ids, the image named at position i gets `ordre` i |
| AdminImages.SetOrder | controllers/adminImages.js:225-226 | one `findByIdAndUpdate`: the image with that id takes the position, every other image is untouched, ids stay unique |
| AdminImages.Reorder | controllers/adminImages.js:213-234 | 400 without an array; otherwise every image is replaced by its reordered form, whatever its category |
| PublicCategories.ActiveImages | controllers/publicCategories.js:22-26 | exactly the category's active images |
| PublicCategories.ActiveImagesOrdered | controllers/publicCategories.js:26 | by `ordre`, then newest first |
| PublicCategories.EntryOf | controllers/publicCategories.js:33-40 | an entry carries its category's fields and `nombreImages` equals its image count, at most 20 |
| PublicCategories.EntryImages | controllers/publicCategories.js:31 | the entry's images are the first 20 active images, or all of them when fewer |
| PublicCategories.ActiveCategories | controllers/publicCategories.js:15-16 | exactly the active categories |
| PublicCategories.Entries | controllers/publicCategories.js:20-42 | one entry per category, in the same order |
| PublicCategories.PublicListing | controllers/publicCategories.js:13-53 | `count` is the number of categories returned, and each has at least one image |
| PublicCategories.EntriesMembers | controllers/publicCategories.js:20-42 | the entries are exactly those of the given categories |
| PublicCategories.ListingMembers | controllers/publicCategories.js:15-47 | the listing holds exactly the entries of active categories that have an active image |
| PublicCategories.ListingComplete | controllers/publicCategories.js:15-47 | every active category with an active image is listed, with its first 20 images |
| PublicCategories.ListingDropsEmpty | controllers/publicCategories.js:45-47 | a category without active images is not listed |
| PublicCategories.ListingOrdered | controllers/publicCategories.js:16 | by `ordre`, then by name |
| PublicCategories.NombreImagesIsCapped | controllers/publicCategories.js:31-39 | with more than 20 active images `nombreImages` is 20, not the total |
| PublicCategories.BySlug | controllers/publicCategories.js:66-99 | 404 unless an active category has the lower-cased slug; otherwise it with all its active images, uncapped |
| PublicCategories.ShownAt | models/Category.js:11-15 | the `findOne` filter after the `lowercase` setter: the stored slug equals the lower-cased parameter and the category is active |
| PublicCategories.BySlugIgnoresCase | controllers/publicCategories.js:68-71 | the page for a slug is the page for its lower-cased form: "Perruques" finds "perruques" |
| PublicCategories.ListingIsPrefixOfPage | controllers/publicCategories.js:22-88 | a listing entry shows the first 20 images of its slug page, and all of them when there are at most 20 |
| AdminModel.ParseRole | models/Admin.js:22-26 | the role enum accepts exactly "admin" and "super_admin" |
| AdminModel.RoleName | models/Admin.js:22-26 | the stored spelling of a role parses back to it |
| AdminModel.NormalizeEmail | models/Admin.js:10-16 | the e-mail is stored lower-cased and trimmed |
| AdminModel.SchemaValid | models/Admin.js:6-26 | the validator: non-empty name and e-mail, and a password of at least 6 UTF-16 code units |
| AdminModel.Matches | models/Admin.js:49-51 | `comparePassword`: the stored value is a hash of exactly the candidate text |
| AdminModel.PreSave | models/Admin.js:41-46 | the password is hashed only when it was modified, and nothing else changes |
| AdminModel.HashedOnCreate | models/Admin.js:41-51 | a new account accepts exactly the password it was created with |
| AdminModel.SaveKeepsLogin | models/Admin.js:41-51 | a save that does not touch the password keeps it matching; rehashing would break it |
| AdminModel.IdString | utils/adminAuth.js:82 | the text form of an id is not empty |
| AdminModel.CastId | controllers/adminController.js:312 | the cast succeeds exactly on a non-empty string of digits |
| AdminModel.CastIdString | utils/adminAuth.js:35 | casting the text of an id gives the id back |
| AdminModel.IndexOf | controllers/adminController.js:106 | the record found has the id; none only when no record has it |
| AdminModel.IndexOfEmail | controllers/adminController.js:21 | the record found has the normalised e-mail; none only when no record has it |
| AdminAuth.Verify | utils/adminAuth.js:24 | a token not signed with the secret is invalid; a genuine one decodes before its `exp` second and is expired from then on |
| AdminAuth.Present | utils/adminAuth.js:14-16 | `if (!token)`: the cookie is there and not the empty string |
| AdminAuth.GenerateToken | utils/adminAuth.js:79-88 | the token carries the id, e-mail and role of the record, signed with the secret, expiring 24 h after issue |
| AdminAuth.TokenLifetime | utils/adminAuth.js:79-88 | an issued token verifies for 24 h with its claims, is expired after that, and is invalid under another secret |
| AdminAuth.Guard | utils/adminAuth.js:7-74 | each answer exactly when its condition holds: 401 missing, invalid or expired token; 403 role claim not an admin role; 500 id claim that is not an id; 401 missing or inactive account; otherwise the context from the stored record |
| AdminAuth.GuardChecksTokenFirst | utils/adminAuth.js:14-32 | a missing, invalid or expired token, or a foreign role, is refused whatever the stored admins |
| AdminAuth.GuardRefusesUnavailable | utils/adminAuth.js:35-42 | a missing or deactivated account is refused even with a genuine, unexpired token |
| AdminAuth.GuardAcceptsIssuedToken | utils/adminAuth.js:35-51 | an issued token opens the guard for 24 h, and the context carries what the record says now |
| AdminController.LoggedIn | controllers/adminController.js:48 | only the time of the last login changes |
| AdminController.LoginKeepsPassword | controllers/adminController.js:48-49 | the save after a login keeps the same password working |
| AdminController.Login | controllers/adminController.js:10-74 | 400 without both fields; the same 401 for an unknown e-mail and a wrong password; 403 for a deactivated account only after the password matched; no other status than these and 200, where the login time is saved and a token issued |
| AdminController.NewAdmin | controllers/adminController.js:158-164 | a new account is active, never logged in, with its e-mail normalised; it passes the schema exactly when the name, e-mail and a password of at least 6 UTF-16 code units are there |
| AdminController.AstralPasswordLongEnough | models/Admin.js:20 | three emoji are three characters but six code units, and pass the 6-unit minimum |
| AdminController.Enrolled | controllers/adminController.js:158-164 | the stored account accepts exactly the password it was created with |
| AdminController.CreateFirst | controllers/adminController.js:138-175 | 400 as soon as any admin exists or a field is missing, 500 when the schema refuses (a password under 6 UTF-16 code units); otherwise one active super administrator is stored |
| AdminController.SuperGate | controllers/adminController.js:193-200 | 500 for a caller record that is gone, 403 for a caller who is not a super administrator |
| AdminController.NewRole | controllers/adminController.js:224 | the given role when truthy, `admin` otherwise |
| AdminController.Create | controllers/adminController.js:190-237 | the super-administrator check, then 400 for a missing field or an e-mail in use, then 500 for a bad role or a password under 6 UTF-16 code units; otherwise the account is appended |
| AdminController.Register | controllers/adminController.js:220-237 | with the e-mail free, 201 exactly when the role parses and the schema accepts the new account, which is appended with e-mails still unique; otherwise 500 and nothing changes |
| AdminController.EnrolledStorable | controllers/adminController.js:220-226 | appending a new account whose e-mail is not in use keeps e-mails unique and every document storable |
| AdminController.Me | controllers/adminController.js:104-124 | the caller's own profile, or 404 when the record is gone |
| AdminController.Views | controllers/adminController.js:270-278 | the view of each admin, in order, without the password |
| AdminController.List | controllers/adminController.js:252-279 | for a super administrator, a view of every admin |
| AdminController.ListNewestFirst | controllers/adminController.js:263-265 | newest first |
| AdminController.AdmitAsWritten | controllers/adminController.js:295-319 | the written ladder lets through only a target whose id is the parameter |
| AdminController.SelfCheckNeverFires | controllers/adminController.js:305 | as written (here and in the copy at line 359), the self check is false for every parameter, so a super administrator reaches their own record |
| AdminController.Admit | controllers/adminController.js:295-319 | 400 exactly for the caller's own id, 500 for a malformed id, 404 for an unknown one; an admitted target is never the caller (the delete route repeats this ladder at lines 349-373) |
| AdminController.AdmitDiffersOnlyOnSelf | controllers/adminController.js:305 | the corrected ladder and the written one agree on every other parameter |
| AdminController.Toggled | controllers/adminController.js:321 | only `actif` flips |
| AdminController.ToggleStatus | controllers/adminController.js:293-333 | the corrected ladder (`Admit`, refusing the caller's own id), then the target's `actif` flips; the caller's own record is never touched |
| AdminController.Delete | controllers/adminController.js:347-380 | the corrected ladder (`Admit`, refusing the caller's own id), then exactly the target is removed; the caller's own record stays |
| EmailConfig.StripTags | utils/emailConfig.js:28 | no tag is left, nothing is added, and the text only shrinks |
| EmailConfig.StripTagsKeepsTagless | utils/emailConfig.js:28 | a text without tags is unchanged |
| EmailConfig.StripTagsIdempotent | utils/emailConfig.js:28 | stripping twice strips nothing more |
| EmailConfig.ReplaceCI | utils/emailConfig.js:29-30 | a text without an occurrence in any case is unchanged |
| EmailConfig.KeptPrefix | utils/emailConfig.js:29 | with a replacement foreign to the pattern, a prefix of the result made of pattern characters was copied from the input |
| EmailConfig.ReplaceCIRemovesAll | utils/emailConfig.js:29 | a non-empty replacement sharing no character with the pattern leaves no occurrence of it, in any case |
| EmailConfig.NbspAllReplaced | utils/emailConfig.js:29 | no `&nbsp;`, in any case, survives its replacement by a space |
| EmailConfig.DropSpaces | utils/emailConfig.js:32 | the text after its leading whitespace |
| EmailConfig.Collapse | utils/emailConfig.js:31 | every whitespace run becomes one space |
| EmailConfig.CollapsedSlice | utils/emailConfig.js:31-32 | any piece of a collapsed text is collapsed |
| EmailConfig.PlainText | utils/emailConfig.js:27-32 | the plain text is collapsed and has no space at either end |
| EmailConfig.CollapseKeepsWordless | utils/emailConfig.js:31 | a text without whitespace is unchanged by the collapse |
| EmailConfig.EscapedNbspStaysLiteral | utils/emailConfig.js:29-30 | `&amp;nbsp;` gives the literal `&nbsp;`; the other order would give a space |
| EmailConfig.BeforeAt | utils/emailConfig.js:43 | the prefix of the text before its first '@', the whole text without one |
| EmailConfig.RecipientOf | utils/emailConfig.js:42-43 | the address trimmed then lower-cased, and the name cut from the raw address |
| EmailConfig.RecipientNameUntrimmed | utils/emailConfig.js:43 | leading spaces stay in the name: " a@b" is named " a" |
| EmailConfig.MessageOf | utils/emailConfig.js:35-54 | the message carries the sender, recipient, subject, HTML and its plain text |
| EmailConfig.SenderOf | utils/emailConfig.js:7 | the configured sender when set, otherwise the default; never empty |
| EmailConfig.CheckConfig | utils/emailConfig.js:115-126 | true exactly when the API key is set, since the sender always has a default |
| EmailConfig.WaitsLinear | utils/emailConfig.js:109 | the i-th wait is 1000·(i+1) ms, one per failed attempt before the last |
| EmailConfig.Attempts | utils/emailConfig.js:56-111 | at most `retries` attempts; every attempt but the last got a retryable failure; success resolves, 401 or 400 throw at once, and the last failure throws |
| EmailConfig.SendEmail | utils/emailConfig.js:17-111 | no attempt without the key or with a falsy `to`, `subject` or `html`; otherwise the attempts on the derived message, with 3 tries by default |

## Left out

- Express wiring is not modelled: routing, body parsing, CORS, cookie parsing and static serving. The `POST /logout` route (controllers/adminController.js:87-99), which only clears the cookie, is not modelled either.
- I/O is not modelled: all `console` logging, the JSON response bodies beyond status and record, and the `token` cookie and its options.
- controllers/contactRoutes.js and models/Product.js are not part of this model. The first is a field check and an HTML template around `sendEmail`. The second is used by no route.
- The field-by-field image update and delete in controllers/adminImages.js:123-208 are not modelled. They are unreachable behind the category router's routes of the same path (app.js:34-35).
- bcrypt, `jsonwebtoken` and the Brevo HTTP API are symbolic.
  - Their cryptography and wire formats are not modelled.
  - The random salt of `bcrypt.genSalt` is a parameter.
  - The provider's answers are a function of the message and the attempt number.
  - The waits are returned as a list of durations, not slept.
- Mongo query features are reduced to filters over sequences: `populate`, the `select` projections, `lean`, and the atomicity of updates.
- AdminCategories.Create: the name is compared by case-insensitive equality, not compiled as a regular expression. So a name containing regular-expression metacharacters is not modelled as the pattern it builds.
- Route ids are ids in the model. The 500 that a malformed `:id` causes through Mongoose's cast is modelled only for admin accounts (`AdminController.Admit`, `AdminAuth.Guard`). For categories, images, promotions and reviews it is not.
- AdminImages.Reorder: the concurrent `findByIdAndUpdate` calls of `Promise.all` are applied one after the other, in list order, so a repeated id takes its last position. A malformed id in the list, which would fail the route with 500, is not modelled.
- Concurrency is not modelled: the rate-limit check-then-create race, the analytics read-modify-write races and request interleavings. Every route is one sequential step.
- Times are integer milliseconds and calendar days are day numbers (UTC). Local-midnight truncation, `setDate` across daylight-saving changes, and the chart's `toDateString`/`toISOString` labels are not modelled. A promotion date that `new Date` cannot parse (an Invalid Date, which fails the save with 500 at controllers/adminPromotions.js:110-111 and 150-151) is not modelled either: a date in the model is always a number.
- Prices and dimensions are integers, not floating-point numbers. ImageModel.PrixFormate: `toLocaleString('fr-FR')` digit grouping is rendered as plain decimal digits.
- Lower-casing and NFD decomposition cover ASCII and the Latin-1 letters (U+00C0 to U+00FF) only, through a table. Other Unicode characters are left as they are. CategoryModel.Slug, AdminModel.NormalizeEmail, PublicCategories.BySlug and EmailConfig.RecipientOf are therefore exact only on that range.
- AnalyticsRoutes.Commande: an order's ids are strings. A body id sent as `null` or as a number, and the 12-character string form that Mongoose also casts to an ObjectId, are not modelled.
- BumpKeepsInvariant, OrderedConsistent and OrderKeepsConsistent promise distinct ids only when the body gives them in lower case; an upper-case id really does repeat (`AnalyticsRoutes.UpperCaseIdRepeats`).
- TombolasWithinActive: proves that the two listings hold the same promotions, each as often, not that they are equal as sequences. Each listing sorts by `createdAt` on its own, so promotions created at the same instant may come out in a different order.
- EmailConfig.ReplaceCI: that every occurrence is replaced is proved for the `&nbsp;` step (`ReplaceCIRemovesAll`); the `&amp;` step, whose replacement `&` is itself a character of the pattern, has only the example lemma.
- Mongoose `timestamps` are reduced to `createdAt`. `updatedAt` is not modelled.
- Storage failures other than validation and unique-index errors are not modelled: no route answers 500 for a lost database connection.

## Findings

| source | as written | input that shows it | evidently intended | confidence | as-written member | corrected member |
|---|---|---|---|---|---|---|
| controllers/adminController.js:305, 359 | `req.params.id === req.admin.id` compares the route's string with the stored id object that the guard attaches (utils/adminAuth.js:46), so it is never true | a super administrator with id 7 sends `PUT /api/admin/7/toggle-status` or `DELETE /api/admin/7`; the self check lets it through, and they deactivate or delete their own account | refuse with 400 when the parameter names the caller's own id | high (follows from the `===` semantics; not executed) | AdminController.SelfCheckNeverFires | AdminController.Admit |
