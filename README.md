# DevLife events: engagement and ownership, modelled in Dafny

This project models the event controller of the DevLife back end
(`devlife-backend/controllers/event.js`). The controller serves a MongoDB
collection of events. Each event has a title, a body, a creation time, an
optional update time, the user who posted it, an optional photo, an array of
likes and an array of embedded comments.

The handlers are modelled as methods of a `Store` class. The class holds the
collection as a map from `_id` to document, plus the collection's natural
order. Each handler's update operator is modelled as a pure function from
document to document:

- `$push` appends one element.
- `$pull` removes every element that matches and keeps the rest in order.

Lemmas about those functions state what the handlers promise. The
authorization gate `isPoster` and the page window of `getEvents` are pure
functions with their own lemmas.

Files:

- `types.dfy`: module `EventTypes`, the documents and the failure values.
- `documents.dfy`: module `Documents`, one function per update a handler
  sends, and the lemmas about them.
- `authorization.dfy`: module `Authorization`, the `isPoster` predicate.
- `paging.dfy`: module `Paging`, the sort, skip and limit of `getEvents`, and
  the poster filter of `eventsByUser`.
- `store.dfy`: module `EventStore`, the collection and the handlers.

The model follows what the code does, including where it differs from
what a reader of the routes might expect:

- `likes` is an array, not a set. `like` pushes onto it, so a second like by
  the same user stores the id a second time. `unlike` pulls every copy.
- The owner can change after creation. `updateEvent` copies every submitted
  field onto the document, `postedBy` included, so an update can hand the
  event to another user (`UpdateTransfersOwnership`).
- `updateComment` is not one atomic edit. It sends two separate writes: a
  pull by id, then a push of the submitted comment. An unknown id is not an
  error: the comment is simply appended. The edited comment moves to the
  end. If the second write fails, the comment stays deleted. The push also
  carries an `updated:` entry whose effect depends on the store, so the
  model does not set `updated` there.
- A missing event is not answered with 404. `eventById` answers 400, as the
  controller does for every other failure except the gate's 403.
- `createEvent` sets `postedBy` to `req.profile`. That is the user named by
  `:userId` in the URL, not necessarily the signed-in caller.
- Each page of `getEvents` is a query of its own, and the store fixes no
  order among events created at the same instant. Pages read one after the
  other tile the sorted collection when no two events share a creation time
  (`PagesTileAcrossQueries`); with ties an event can be served twice and
  another never (`TiedPagesCanRepeat`).

## Model

| member | source | states |
|---|---|---|
| `Documents.Pull` | devlife-backend/controllers/event.js:210-214 | `$pull` by value: the result holds exactly the other elements, each with its multiplicity, and never the pulled value |
| `Documents.PullAppend` | devlife-backend/controllers/event.js:210-214 | `$pull` works element by element: pulling from `s + t` is pulling from `s` then from `t`, so the relative order is kept |
| `Documents.PullAbsent` | devlife-backend/controllers/event.js:210-214 | pulling a value that is absent leaves the array as it was |
| `Documents.PullComment` | devlife-backend/controllers/event.js:248-253 | `$pull` by `_id`: no comment with that id remains, and every other comment keeps its multiplicity |
| `Documents.PullCommentAppend` | devlife-backend/controllers/event.js:248-253 | pulling comments by id keeps the order of the remaining comments |
| `Documents.PullCommentAbsent` | devlife-backend/controllers/event.js:248-253 | pulling an id that no comment carries is a no-op |
| `Documents.FindAppended` | devlife-backend/controllers/event.js:226-233 | after a comment with a fresh id is pushed, a lookup by its id finds it |
| `Documents.LikeAppendsCopy` | devlife-backend/controllers/event.js:194-199 | a like appends the user at the end and leaves earlier likes and all comments as they were; liking twice adds two copies |
| `Documents.UnlikeRemovesEveryCopy` | devlife-backend/controllers/event.js:210-214 | unlike removes every copy of the user, keeps every other id with its count and leaves comments alone; it is a no-op when the user never liked |
| `Documents.UnlikeKeepsOrder` | devlife-backend/controllers/event.js:210-214 | the likes left after unlike keep their relative order around any split point |
| `Documents.UnlikeUndoesLike` | devlife-backend/controllers/event.js:194-214 | like then unlike by a user not among the likers restores the whole event |
| `Documents.UnlikeUndoesDoubleLike` | devlife-backend/controllers/event.js:194-214 | after two likes by the same user, one unlike leaves what an unlike of the original event leaves |
| `Documents.UnlikeIdempotent` | devlife-backend/controllers/event.js:210-214 | a second unlike changes nothing |
| `Documents.CommentAttributedToCaller` | devlife-backend/controllers/event.js:226-233 | `comment` appends exactly one comment, at the end, with `postedBy` replaced by the request's `userId`; earlier comments and likes are unchanged; when its id is fresh a lookup by the id finds it |
| `Documents.UncommentUndoesComment` | devlife-backend/controllers/event.js:226-253 | comment then uncomment by the new comment's id restores the event |
| `Documents.UncommentRemovesMatches` | devlife-backend/controllers/event.js:248-253 | uncomment removes every comment with the id, keeps the others with their counts and order, leaves likes alone and is a no-op without a match |
| `Documents.EditedCommentIsLastAndUnique` | devlife-backend/controllers/event.js:294-309 | after an edit the submitted comment is last, it is the only one with its id, and a lookup by the id returns it |
| `Documents.EditUnknownIdAppends` | devlife-backend/controllers/event.js:294-309 | editing an id no comment carries appends the comment; there is no not-found case |
| `Documents.PullCommentBetween` | devlife-backend/controllers/event.js:297-298 | pulling the one comment with an id out of the middle joins the parts around it |
| `Documents.EditMovesToEnd` | devlife-backend/controllers/event.js:294-309 | editing the comment at position k, the only one with its id, moves it to the end and keeps the others in order |
| `Documents.EngagementKeepsHeader` | devlife-backend/controllers/event.js:194-253 | like, unlike, comment, uncomment and edit change only `likes` or `comments`: owner, title, body, timestamps and photo are kept |
| `Documents.CreatorIsOwner` | devlife-backend/controllers/event.js:73-82 | a new event belongs to the request's profile, a submitted `postedBy` has no effect, and it starts with no likes, no comments and no `updated` |
| `Documents.MergeOverwritesSubmittedFields` | devlife-backend/controllers/event.js:151-158 | the merge copies each submitted field (`title`, `body`, `created`, `postedBy`) and keeps each absent one, sets `updated` to the clock, replaces the photo exactly when one is uploaded and keeps likes and comments |
| `Documents.MergeIdempotent` | devlife-backend/controllers/event.js:151-158 | merging the same form twice at the same instant equals merging it once |
| `EventTypes.OnlyTheGateAnswersForbidden` | devlife-backend/controllers/event.js:119-122 | the gate's refusal is the only 403; every other failure the controller reports is a 400 |
| `Authorization.GateAdmitsPosterOrAdmin` | devlife-backend/controllers/event.js:109-125 | the gate passes iff the caller is the poster or has role `"admin"`; a missing event or caller always fails |
| `Authorization.EngagementKeepsGate` | devlife-backend/controllers/event.js:109-117 | likes and comments never change who passes the gate |
| `Authorization.CreatorPassesGate` | devlife-backend/controllers/event.js:73-77 | the user an event is created for passes the gate on it, whatever the form said |
| `Authorization.UpdateTransfersOwnership` | devlife-backend/controllers/event.js:151-153 | a poster who submits another user's id as `postedBy` hands the event over: the new user passes the gate and the former non-admin poster no longer does |
| `Paging.Insert` | devlife-backend/controllers/event.js:56 | inserting into a list sorted by `created` descending keeps it sorted and adds exactly that event |
| `Paging.SortByCreatedDesc` | devlife-backend/controllers/event.js:56 | the sort returns a permutation of the collection ordered by `created`, newest first |
| `Paging.Window` | devlife-backend/controllers/event.js:50-55 | skip and limit return the elements at positions `[skip, skip + limit)` that exist |
| `Paging.PageOf` | devlife-backend/controllers/event.js:37-56 | a page of at least 1, or no page, yields at most 6 events, sorted newest first, all from the collection; a page below 1 yields no list |
| `Paging.PageIsSortedSlice` | devlife-backend/controllers/event.js:39-56 | page p holds exactly the sorted events at positions `[(p-1)*6, (p-1)*6+6)`, and none past the end |
| `Paging.DefaultPageIsFirst` | devlife-backend/controllers/event.js:39 | without a page parameter page 1 is served |
| `Paging.ThirteenEvents` | devlife-backend/controllers/event.js:41-56 | with 13 events, pages 1 and 2 hold 6 each, page 3 holds 1 and page 4 is empty |
| `Paging.FirstPageStartsWithNewest` | devlife-backend/controllers/event.js:56 | page 1 opens with an event at least as recent as every event in the collection |
| `Paging.EarlierPagesAreNewer` | devlife-backend/controllers/event.js:49-56 | every event on an earlier page is at least as recent as every event on a later page |
| `Paging.WindowsTile` | devlife-backend/controllers/event.js:50-55 | skip `(k-1)*6`, limit 6 for k = 1, 2, ... covers a prefix of the list with no gap and no overlap |
| `Paging.PagesTile` | devlife-backend/controllers/event.js:49-56 | pages 1 to k cut from the model's one sorted order are its first 6k events: no event is skipped or repeated |
| `Paging.PagesCoverCollection` | devlife-backend/controllers/event.js:49-56 | once the pages, cut from the model's one sorted order, reach past the end they hold a permutation of the whole collection |
| `Paging.HeadsAgree` | devlife-backend/controllers/event.js:56 | two orders sorted newest first over the same events open with the same event when no two events share `created` |
| `Paging.SortedUnique` | devlife-backend/controllers/event.js:56 | without ties in `created` there is exactly one order sorted newest first, so every query sorts the same way |
| `Paging.PagesTileAcrossQueries` | devlife-backend/controllers/event.js:49-56 | each page a separate query with any valid tie order: when no two events share `created`, pages 1 to k are the first 6k sorted events |
| `Paging.TiedPagesCanRepeat` | devlife-backend/controllers/event.js:49-56 | with seven events created at the same instant, two valid orders for pages 1 and 2 serve the sixth event twice and the seventh never |
| `Paging.FilterByPoster` | devlife-backend/controllers/event.js:94-98 | the query `{ postedBy: user }` returns exactly the events of the collection posted by that user |
| `EventStore.Store.Collection` | devlife-backend/controllers/event.js:49 | `Event.find()` yields each stored event, by its own id, and every stored event appears |
| `EventStore.Store.EventById` | devlife-backend/controllers/event.js:6-20 | a stored id loads its event; a missing id is a 400 failure |
| `EventStore.Store.GetEvents` | devlife-backend/controllers/event.js:37-62 | `getEvents` answers at most 6 stored events, newest first, or no list for a page below 1 |
| `EventStore.Store.EventsByUser` | devlife-backend/controllers/event.js:94-107 | `eventsByUser` answers exactly the stored events posted by the user |
| `EventStore.Store.CreateEvent` | devlife-backend/controllers/event.js:64-91 | an accepted save with a fresh id inserts the new document at the end of the natural order; otherwise nothing changes |
| `EventStore.Store.UpdateEvent` | devlife-backend/controllers/event.js:141-169 | behind `eventById` and `isPoster`: a missing event (400) or a caller who is not poster or admin (403) leaves the store unchanged; otherwise the merged document replaces the stored one |
| `EventStore.Store.DeleteEvent` | devlife-backend/controllers/event.js:171-183 | behind `eventById` and `isPoster`: a refusal changes nothing; otherwise the event leaves both the map and the natural order |
| `EventStore.Store.Like` | devlife-backend/controllers/event.js:194-208 | the stored event becomes `LikeDoc` of itself and is answered; an unknown id answers null and changes nothing |
| `EventStore.Store.Unlike` | devlife-backend/controllers/event.js:210-224 | the stored event becomes `UnlikeDoc` of itself and is answered; an unknown id answers null and changes nothing |
| `EventStore.Store.PushComment` | devlife-backend/controllers/event.js:230-233 | `$push` of a comment as given onto the stored event; an unknown id answers null |
| `EventStore.Store.AddComment` | devlife-backend/controllers/event.js:226-246 | the stored event becomes `CommentDoc` of itself, with the comment attributed to `userId` |
| `EventStore.Store.Uncomment` | devlife-backend/controllers/event.js:248-267 | the stored event becomes `UncommentDoc` of itself; an unknown id answers null and changes nothing |
| `EventStore.Store.UpdateComment` | devlife-backend/controllers/event.js:294-323 | a failed first write changes nothing; a failed second write leaves the comment pulled; two good writes leave `EditCommentDoc` of the event |
| `EventStore.LikeCommentEditRun` | devlife-backend/controllers/event.js:194-309 | create by u1, two likes by u2, a comment and its edit leave likes `[u2, u2]` and the edited comment alone; the model leaves `updated` untouched by the edit, so it is still unset |

## Left out

- Multipart parsing and file reads (`formidable`, `fs.readFileSync`) are I/O. The parsed text fields arrive as `Fields` and an uploaded photo as `Option<Photo>`.
- Clock readings (`Date.now()`) are a `now` parameter. Store-assigned ids are an `id` parameter, and the document's `_id` is its key in the map.
- Store outcomes are parameters: `accepted` for a save in `createEvent` and `updateEvent`, and `firstWriteFails` and `secondWriteFails` for the two writes of `updateComment`. A store error in the other single-write handlers answers 400 and changes nothing; that case is not modelled.
- The schema in models/event.js is not part of this model. A save it refuses is `accepted = false`. Title and body may be absent. `created` is taken from the form when given and from the clock otherwise, which is how a schema default behaves.
- Only `title`, `body`, `created` and `postedBy` are modelled as form fields. Other schema paths that a form could set (`likes`, `comments`, `_id`) are not.
- `populate` and `select` are not modelled. They project author references through the user collection, which is not part of this model, and drop fields from answers. Answers are the whole documents.
- HTTP plumbing is not modelled: status codes beyond `Failure.Status`, `res.json`, the `photo` and `singleEvent` handlers, and the Express wiring. The only routing fact modelled is that update and delete pass `eventById` and then `isPoster`.
- `requireSignin` and `userById` are not part of this model. The caller arrives as a validated `Auth`, and `req.profile` arrives as a `profile` id.
- Neither `like`, `unlike` nor `comment` checks the body's `userId` against the token, and neither `uncomment` nor `updateComment` checks who wrote the comment. The model takes `userId` as given and has no check either.
- Concurrency is not modelled. Each `findByIdAndUpdate` is one atomic step, and nothing interleaves between the two writes of `updateComment`.
- The `updated: new Date()` entry inside the second `$push` of `updateComment` has a store-dependent effect. The model leaves `updated` untouched; a store that rejects the write is the `secondWriteFails` case.
- The query string's coercion of `page` is not modelled. `page` is an optional integer.
- The total count that `getEvents` computes is never sent, so it is not modelled. When `getEvents` fails it only logs and never answers; that is the `None` result.
- Paging.SortByCreatedDesc: events with equal `created` keep the collection's natural order. The store promises no particular order for ties.
- Paging.PagesTile, Paging.PagesCoverCollection: both cut every page from the model's one stable sort. The source runs a separate query per page and the store may order ties differently each time, so the tiling is promised across queries only without ties (`PagesTileAcrossQueries`).
- EventStore.Store.EventsByUser: states membership only, not order, because the source sorts on `_created`, a field the documents do not have.
- A `postedBy` reference whose user no longer exists is not modelled. With such a reference, `isPoster` would throw instead of answering 403.
- Commented-out handlers (event.js:23-34, 127-139, 269-292, 325-365) are not modelled.
