# Fitness tracker server: the route handlers as store transitions

This project models the core of the fitness-platform REST backend
(`index.js`): an Express application whose handlers read and write named
MongoDB collections. The database is replaced by an immutable `Store` with
one sequence per collection, kept in natural (insertion) order. Each write
handler becomes a pure function `(Store, request) -> Step(Store, Response)`.
Each read handler becomes a function `(Store, request) -> Response`.

Modelled components, one module each:

- `Users`: registration with a case-insensitive duplicate check, lookup by e-mail, profile update.
- `Newsletter`: subscription with a case-insensitive duplicate check.
- `Trainers`: the trainer-application lifecycle.
  - Apply inserts a `pending` record.
  - Confirm copies the record into `trainers` with status `accepted`, promotes the user to `trainer` and deletes the pending record.
  - Reject copies the record with the feedback into `trainer-rejections` and deletes the pending record.
  - Remove-trainer demotes the user and deletes the `trainers` record.
  - The application-status report concatenates the pending, rejected and approved rows.
- `Paging`: `page = parseInt(page) || 1`, `skip = (page - 1) * 6`, `limit 6`, `totalPages = ceil(total / 6)`.
- `Classes`: class search, newest-first listing, and up to five related trainers per class.
- `Forum`: post creation, the paginated listing, the home feed and the single-post view, each with author role, author name and vote counts; also the vote toggle.
- `Slots`: lazy creation of one default slot per available day on a trainer's first slot read, the delete guard for booked slots, and slot creation.
- `Seqs`, `Text`, `Store`, `Http`, `Wrappers`: MongoDB primitives and shared types.
  - `findOne`, `updateOne` and `deleteOne` act on the first match in natural order.
  - `find` is a filter that keeps collection order.
  - `sort({ createdAt: -1 })` is `Seqs.NewestFirst`, a stable insertion sort by decreasing `createdAt` over the collection in reverse insertion order. Documents with equal times therefore come newest-inserted first. When the clock never runs backwards this is just the reverse of insertion order (`Seqs.NewestFirstOfChronological`).
  - `toLowerCase` and the JavaScript `||` fallback on optional string fields live in `Text`.

Conventions of the model:

- Clock readings (`new Date()`) are `Time` parameters.
- Object ids come from the store's `nextId` counter.
- A route parameter that `new ObjectId(...)` cannot parse is `IdParam.Malformed`.
- An empty string stands for a string field that is missing, `null` or `""`, since all three are falsy to `||`.
- A handler that throws outside any try/catch yields `Response.Unhandled`: the rejection escapes Express and no reply is sent.
  - This happens for a registration body without `email`.
  - It happens for a vote whose `postId` cannot be parsed.
  - It happens for a negative `page` on `/classes` and `/forum-posts`. There `parseInt(...) || 1` lets `-1` through, the skip is negative, and MongoDB refuses the query.

Behaviour of the code that is easy to get wrong:

- The three trainer collections are not kept mutually exclusive by e-mail. Applying has no check, so a rejected member who re-applies is in both `become-a-trainer` and `trainer-rejections` (`Trainers.ReapplyAfterRejection`). A member can also apply twice, and when both applications are confirmed, `trainers` holds two records for one e-mail.
- A rejection record keeps the status `pending`, because the spread copies it and nothing overwrites it.
- Deleting a booked slot answers 400, not 409.
- Remove-trainer is idempotent only while at most one `trainers` record has the e-mail (`Trainers.RemoveTrainerIdempotent`, `Trainers.RemoveTrainerTwiceDeletesAgain`).
- The forum listing takes the role of the last user with the author's e-mail. The home feed takes the role and display name of the last such user. The single-post view takes the first. They agree when e-mails are unique (`Forum.AuthorLookupsAgree`).

## Model

| member | source | states |
|---|---|---|
| `Users.Register` | index.js:56-68 | A body without an e-mail gets no reply. 409 exactly when a user already has the lower-cased e-mail, and the store is unchanged. Otherwise one user is appended with a fresh id: the lower-cased e-mail, role `member`, `active`, the body's display name, name, full name and photo, `createdAt` from the clock and no `updatedAt`. Nothing else changes. Registration keeps e-mails lower-case and distinct. |
| `Users.GetUser` | index.js:70-78 | 400 without an e-mail. Otherwise it replies exactly when some user has the lower-cased e-mail, and answers 404 exactly when none does. The reply is the first stored user with that e-mail, as `findOne` returns it. |
| `Users.UpdateProfile` | index.js:80-94 | 400 without a display name. 404 exactly when no user has the lower-cased e-mail. Otherwise the first user with that e-mail, the one `updateOne` picks, gets the new name, photo and `updatedAt`. Every other user and collection is untouched. |
| `Users.RegisterIsCaseInsensitive` | index.js:56-60 | After a registration succeeds, any spelling of the same address that lower-cases to the same string is refused with 409. |
| `Users.RegisterThenGetUser` | index.js:56-77 | After a successful registration, looking up any non-empty spelling of the address that lower-cases to the same string replies with the new user document. |
| `Users.UpdateProfileKeepsIdentity` | index.js:86-90 | A profile update never changes an e-mail or a role, so unique lower-case e-mails stay unique. |
| `Newsletter.Subscribe` | index.js:204-222 | 400 unless name and e-mail are both given. 409 exactly when the lower-cased e-mail is already subscribed. Otherwise 201 and one subscriber with the lower-cased e-mail. Subscription keeps subscriber e-mails lower-case and distinct. |
| `Newsletter.SubscribeTwiceConflicts` | index.js:210-213 | The second subscription of the same address in any letter case is refused with 409 and leaves the store as the first subscription left it. |
| `Trainers.SetRole` | index.js:122-125 | `updateOne({ email }, { $set: { role } })` changes nothing but the role. It changes it only on the first user with that e-mail, and that user ends up with the role whenever one exists. `modifiedCount` is 1 exactly when that user had a different role. |
| `Trainers.Apply` | index.js:97-103 | 201 with a fresh id. Exactly one record is appended to the pending applications, carrying the submitted profile, status `pending` and the clock reading. Nothing else changes. |
| `Trainers.ApplyThenConfirm` | index.js:97-114 | An application raises its e-mail's pending count by one, so a later confirmation for that e-mail finds it and does not answer 404. |
| `Trainers.Confirm` | index.js:110-133 | 404 exactly when no pending application has the e-mail, and the store is unchanged. Otherwise the first such application is added to `trainers` with status `accepted`. The pending collection loses exactly that record and keeps the others in order. The e-mail's pending count drops by one. The first user with the e-mail becomes a trainer. `deletedFromPending` is 1. `userUpdated` is 1 exactly when that user existed and was not yet a trainer. |
| `Trainers.Reject` | index.js:136-153 | 404 exactly when no pending application has the e-mail, and the store is unchanged. Otherwise a copy of the first such application carrying the given feedback is appended to the rejections. The pending collection loses exactly that record and keeps the others in order. The reply is `{ deleted: 1, rejected: true }`. |
| `Trainers.RemoveTrainer` | index.js:187-201 | 400 without an e-mail. Otherwise 200: the first user with the e-mail gets the role `member`. `modified` is 1 exactly when that user existed and had another role. `deleted` is 1 exactly when some `trainers` record had the e-mail; the first such record is removed and the others keep their order. The e-mail's `trainers` count drops by `deleted`. |
| `Trainers.ConfirmHead` | index.js:113-127 | Confirming the e-mail of the oldest pending application moves exactly that application, marked `accepted`, to the end of `trainers`; the other pending applications keep their order. |
| `Trainers.RemoveHead` | index.js:191-195 | Demoting the e-mail of the oldest `trainers` record deletes exactly that record and keeps the others in order. |
| `Trainers.ConfirmConservesRecords` | index.js:113-127 | For every e-mail, a confirmation leaves the number of its records in pending plus accepted unchanged: the application moves, it is not duplicated or lost. |
| `Trainers.RejectConservesRecords` | index.js:138-150 | For every e-mail, a rejection leaves the number of its records in pending plus rejected unchanged. |
| `Trainers.RejectTwiceNotFound` | index.js:138-141 | With a single pending application, rejecting again answers 404 and changes nothing. |
| `Trainers.ConfirmTwiceNotFound` | index.js:113-114 | With a single pending application, confirming again answers 404 and changes nothing. |
| `Trainers.RemoveTrainerIdempotent` | index.js:191-195 | With at most one `trainers` record for the e-mail, a second demotion changes nothing and reports `{ modified: 0, deleted: 0 }`. |
| `Trainers.RemoveTrainerTwiceDeletesAgain` | index.js:97-133 | Two applications from one member, both confirmed, leave two `trainers` records with distinct ids. A second demotion then deletes again (`deleted: 1`): demotion is not idempotent in general. |
| `Trainers.ReapplyAfterRejection` | index.js:97-103 | Apply, reject, apply leaves the e-mail both pending and rejected: the collections are not mutually exclusive. |
| `Trainers.StatusReport` | index.js:233-265 | The report has one row per pending application, then one per rejection, then one per trainer user. Pending and rejected rows carry their record's e-mail in collection order, with the name taken from `fullName`, else `name`, else `N/A`. Only rejected rows carry feedback, their record's. The k-th approved row belongs to the user with role `trainer` that has exactly k trainers before it, with the name taken from `displayName`, else `fullName`, else `name`, else `N/A`. No name is empty. |
| `Trainers.PendingEntry` | index.js:240-244 | A pending row carries the application's e-mail, status `Pending` and no feedback, with the name `fullName`, else `name`, else `N/A`. |
| `Trainers.RejectedEntry` | index.js:246-251 | A rejected row carries the record's e-mail, status `Rejected` and its feedback, with the name `fullName`, else `name`, else `N/A`. |
| `Trainers.ApprovedEntry` | index.js:253-257 | An approved row carries the user's e-mail, status `Approved` and no feedback, with the name `displayName`, else `fullName`, else `name`, else `N/A`. |
| `Trainers.ConfirmedIsApproved` | index.js:237-257 | After a confirmation for a registered e-mail, the status report has an `Approved` row with that e-mail. |
| `Trainers.TrainerIsReported` | index.js:237-257 | Every user whose role is `trainer` has an `Approved` row in the status report. |
| `Paging.PageNumber` | index.js:282 | The page is never 0. A missing or unparsable page, or page 0, becomes page 1. Any other parsed value, negative ones included, passes through. |
| `Paging.TotalPages` | index.js:312 | `totalPages` is the fewest pages of six that hold all items: six times it covers the total, one fewer page does not, and it is 0 only for no items. |
| `Paging.Window` | index.js:294-296 | `.skip(n).limit(6)` returns at most six items, none past the end. They are the consecutive items starting at position `n`, and there are exactly `min(6, total - n)` of them. |
| `Paging.Paginate` | index.js:282-297 | No page for a negative page number. Otherwise `currentPage` is the page number, and the items are the at most six consecutive items starting at `(page - 1) * 6`. `totalPages = ceil(total / 6)`. |
| `Paging.PagesArePrefixes` | index.js:284-296 | Pages 1 to n laid end to end are the first 6n items of the listing. |
| `Paging.PagesCoverListing` | index.js:284-312 | Pages 1 to `totalPages` together list every item exactly once, in order. |
| `Paging.ItemPage` | index.js:408-417 | The item at position k of the listing appears on page k / 6 + 1, at position k mod 6. |
| `Paging.PagePastEndIsEmpty` | index.js:434-438 | A page number above `totalPages` yields no items. |
| `Paging.TenItemsSecondPage` | index.js:282-312 | With ten items, page 2 holds the last four and `totalPages` is 2. |
| `Paging.DefaultIsFirstPage` | index.js:282 | A missing, unparsable or zero page gives exactly the first page. |
| `Classes.RelatedTrainers` | index.js:299-308 | A class shows min(5, number of matching trainers) related trainers, each the projection of an accepted trainer whose skills match the class name. The k-th card shown is the trainer with exactly k matching trainers before it in collection order. |
| `Classes.ListClasses` | index.js:281-316 | No reply for a negative page. Otherwise 200 with `currentPage`, and `totalPages` counted over the classes the search selects. The page holds the run of the selection sorted newest first that starts at `(page - 1) * 6`. Each class matches a non-empty search and carries exactly the related trainers `RelatedTrainers` gives for its name. |
| `Classes.PageIsWindow` | index.js:292-297 | The classes on a page are consecutive entries of the selection sorted newest first, starting at the page's skip. |
| `Classes.ClassesInReverse` | index.js:292-297 | When classes were inserted with a clock that never runs backwards, a page lists the selected classes in reverse insertion order. |
| `Classes.ClassesNewestFirst` | index.js:292-294 | Every page lists its classes by decreasing `createdAt`. |
| `Forum.CreatePost` | index.js:394-405 | 400 exactly when the title, content or author e-mail is missing, and the store is unchanged. Otherwise 201 with a fresh id. One post is appended with the body's title, content, author and vote sets, stamped with the clock reading. |
| `Forum.ListedRole` | index.js:420-429 | The role shown for an author is `member` when no user has the e-mail, and otherwise the role of the last user with that e-mail, because the `userMap` object keeps the last write. |
| `Forum.DisplayName` | index.js:481 | The display name if set, else the name if set, else `Anonymous`. |
| `Forum.FeedAuthorName` | index.js:478-492 | The author name in the home feed is `Anonymous` when no user has the e-mail. Otherwise it is the display name of the last user with the e-mail, because the `userMap` object keeps the last write. |
| `Forum.DetailAuthor` | index.js:511-513 | The single-post view shows `member` and `Anonymous` for an unknown author. Otherwise it shows the role and display name of the first user with the e-mail, as `findOne` returns it. The name is never empty. |
| `Forum.ListPosts` | index.js:407-440 | No reply for a negative page. Otherwise 200 with `totalPages = ceil(posts / 6)` and at most six posts. They are the consecutive posts, sorted newest first, starting at `(page - 1) * 6`. Each carries its author's role and vote counts equal to the sizes of its vote sets. |
| `Forum.HomeFeed` | index.js:464-503 | The first six posts sorted newest first, or all posts if there are fewer. Each keeps the post's id, title, content, time and author e-mail. It adds the author's name and role as the last user with the e-mail gives them, and vote counts equal to the sizes of its vote sets. |
| `Forum.FeedNewestFirst` | index.js:467-471 | The home feed lists its posts by decreasing `createdAt`. |
| `Forum.GetPost` | index.js:504-526 | 500 for an unparsable id. 404 exactly when no post has the id. Otherwise a stored post with that id, its vote counts, and its author's role and name. |
| `Forum.ApplyVote` | index.js:451-459 | After the `$addToSet`/`$pull` update, the voter is in the chosen set and not in the other. Every other voter stays where it was, and no other field of the post changes. |
| `Forum.Vote` | index.js:441-463 | 400 exactly for a missing post id, a missing e-mail or an unknown vote type. No reply for an unparsable post id. 404 when no post has the id. In these cases the store is unchanged. Otherwise only the first post with the id changes, and only as the vote dictates. |
| `Forum.VoteIdempotent` | index.js:453-459 | Repeating the same vote succeeds and leaves the store exactly as the first vote left it. |
| `Forum.VoteKeepsVotersExclusive` | index.js:453-461 | If no post has an e-mail among both its upvoters and downvoters, that is still true after any vote request. |
| `Forum.DownvoteThenUpvote` | index.js:453-461 | A downvote then an upvote by the same e-mail leaves it an upvoter and not a downvoter. |
| `Forum.UpvoteCounts` | index.js:453-455 | An upvote raises the upvote count by one exactly when the e-mail was not already an upvoter. It lowers the downvote count by one exactly when the e-mail was a downvoter. |
| `Forum.NewPostHeadsFeed` | index.js:394-472 | A new post whose time is no earlier than any stored post's is first in the home feed, and a chronological collection stays chronological. |
| `Forum.AuthorLookupsAgree` | index.js:478-513 | With unique user e-mails, the listing's last-match lookup and the single-post view's first-match lookup give the same role and name. |
| `Slots.DefaultSlots` | index.js:591-600 | There is one default slot per available day, in day order. Each has the next consecutive id, is unbooked and unassigned, and has package `Basic` and the given time. |
| `Slots.ListSlots` | index.js:576-613 | 404 exactly when no accepted trainer has the lower-cased e-mail. Suppose the trainer has no slots and declares days. Then one unbooked `Basic` slot per day is inserted and returned, in order, with consecutive fresh ids, time `availableTime` or `Not specified`, and stamped with the clock reading. Otherwise the trainer's existing slots are returned and nothing is written. |
| `Slots.ListSlotsStable` | index.js:587-608 | A second read returns exactly the first read's reply and writes nothing: default slots are created once. |
| `Slots.ListSlotsKeepsIdsFresh` | index.js:602-603 | Creating default slots keeps slot ids distinct and below the id counter. |
| `Slots.DeleteSlot` | index.js:615-642 | 500 for an unparsable id. 404 when no slot has the id. 400 when the slot is booked. In these cases the store is unchanged. Otherwise exactly that slot is removed, and the other slots stay in order. |
| `Slots.DeletedSlotIsGone` | index.js:620-631 | With distinct slot ids, a successful delete leaves no slot with the id and ids stay distinct. A booked slot's delete leaves the store as it was. |
| `Slots.CreateSlot` | index.js:646-655 | 201 with a fresh id. The body is appended unchanged apart from its id, with no overlap check, and ids stay distinct. |
| `Text.ToLower` | index.js:58 | Lower-casing (of ASCII letters) keeps the length, leaves no upper-case letter, and maps each character on its own. |
| `Text.Or` | index.js:241 | The logical-or fallback on string fields gives `a` when it is set and `b` otherwise. The result is set exactly when one of them is. |
| `Text.ToLowerIdempotent` | index.js:58 | Lower-casing an e-mail twice gives the same result as once, so lower-cased stored e-mails compare equal to lower-cased queries. |
| `Seqs.FindFirst` | index.js:113 | `findOne` returns the first matching document, and nothing at all exactly when no document matches. |
| `Seqs.DeleteFirst` | index.js:127 | `deleteOne` removes exactly the first matching document. It reports 0 exactly when nothing matches, and the match count drops by the deleted count. |
| `Seqs.FindLast` | index.js:421-429 | The `userMap` fold keeps the last matching user: the index of the last match, and nothing exactly when no document matches. |
| `Seqs.Count` | index.js:291 | `countDocuments` is 0 exactly when no document matches, and never more than the collection's size. |
| `Seqs.Filter` | index.js:292-293 | `find(filter)` returns as many documents as match, each of them matching and from the collection. |
| `Seqs.FilterKeepsOrder` | index.js:292-293 | `find` with a filter keeps a collection that is ascending by a key ascending. |
| `Seqs.FilterRank` | index.js:237 | `find` keeps collection order: its k-th result is the document with exactly k matches before it. |
| `Seqs.Take` | index.js:303 | `.limit(n)` returns the first `min(n, size)` documents. |
| `Seqs.NewestFirst` | index.js:294 | `sort({ createdAt: -1 })` returns the same documents, as a multiset, ordered by decreasing `createdAt`. |
| `Seqs.SortedIsUnchanged` | index.js:294 | Sorting a sequence already in decreasing order leaves it unchanged. |
| `Seqs.NewestFirstOfChronological` | index.js:294 | On a collection inserted in clock order, the newest-first sort is the reverse of insertion order. |
| `Seqs.LatestHeadsNewestFirst` | index.js:470 | A document inserted last with a time no earlier than any other is first after the newest-first sort. |
| `Seqs.ReverseIsNewestFirst` | index.js:414 | Reversing a collection inserted in clock order lists it by decreasing time. |

## Left out

- Payments: `POST /create-payment-intent`, `POST /payments`, `GET /payments/:id` and `GET /admin/balance`. They are calls to the payment provider and floating-point sums and conversions.
- Process bootstrap: environment configuration, the Firebase key decoding, the MongoDB connection, CORS/JSON middleware and `app.listen`.
- Plain collection reads that return a collection without logic of their own:
  - `GET /become-a-trainer`;
  - `GET /rejected-applications`;
  - `GET /newsletter`;
  - `GET /trainers`, `GET /trainers/:id`, `GET /trainers?email=`.
  Route precedence between the duplicated `/trainers` routes is also left out.
- `POST /classes`, the class-insert route. The class listing reads the classes collection as given.
- Regular expressions: the class search and the trainer-skill match are the predicate parameters `nameMatches` and `skillMatches`.
- Classes.ListClasses: a search text or a class name that is not a valid pattern, such as `C++`, makes `new RegExp` throw. The source then sends no reply; the model answers 200 as if the pattern had matched by `nameMatches` and `skillMatches`.
- Classes.RelatedTrainers: the throw of `new RegExp(cls.name, 'i')` on a class name that is not a valid pattern is not modelled; see `Classes.ListClasses`.
- Text.ToLower: lowers ASCII letters only. JavaScript's `toLowerCase` follows Unicode case mapping: it can change the length (`'İ'` becomes two characters) and lowers a final sigma by context. "Keeps the length" and "maps each character on its own" hold of the model only.
- Confirm and reject with no `email` in the body. The source then queries `{ email: undefined }`, which MongoDB treats as a query for a missing e-mail. The model reads it as a query for the empty e-mail.
- Request bodies are stored whole by the source. The model keeps only the fields some handler reads.
- Forum.CreatePost: the body's `upvotes` and `downvotes` arrays are taken as sets. A repeated entry, which the source stores and counts twice, is lost. A value there that is not an array is not modelled.
- Slots.CreateSlot: a body that carries its own `_id` keeps it in the source, and a repeated `_id` makes the insert fail with 500. The model always issues a fresh id from the counter.
- Users.Register: a body's own `_id` is not modelled (a repeated one makes the insert throw, and no reply is sent); the model issues a fresh id.
- Trainers.Apply: a body's own `_id` is not modelled (a repeated one makes the insert throw, and no reply is sent); the model issues a fresh id.
- Forum.CreatePost: a body's own `_id` is not modelled (a repeated one makes the insert throw, and no reply is sent); the model issues a fresh id.
- The JavaScript `userMap` object: an author e-mail that names a property of `Object.prototype` (such as `constructor`) is not modelled.
- Concurrency between requests, and partial failure of the multi-write handlers (confirm, reject). Each handler is one sequential transition, with no claim of atomicity.
- A process crash on an unhandled promise rejection: the model only records that no reply is sent.
- Sort ties: MongoDB does not fix the order of documents with equal `createdAt`. The model lists them newest-inserted first.
- Paging.Paginate: the page number is an unbounded integer. `parseInt` yields a double, so above about 1.5e18 the skip `(page - 1) * 6` is no longer a 64-bit integer; MongoDB then refuses the query and no reply is sent, where the model answers 200 with an empty page. `Classes.ListClasses` and `Forum.ListPosts` inherit this.
