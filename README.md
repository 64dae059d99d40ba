# Event controller of the club event service, modelled in Dafny

This project models the event controller of a small club-event backend
(`src/controllers/event.controller.js`). A club creates an event that needs approval from a
list of approval bodies. The controller can create, list, fetch and edit events.

The model works over an in-memory store (`EventController.Store`):

- `events`: a map from event id to event record, plus `order`, the collection's natural order. The event list query scans in that order.
- `users`: a map from user id to user record. Each record carries the two summary lists `eventsCreated` and `approvalsRequested`.
- `outbox`: the approval-request emails handed to the mail transport.

Every awaited database call is one sequential step. A step that throws ends the request and
keeps the writes made before it.

- **Create** (`Store.CreateEvent`) fails before anything is written when no file was uploaded. In that case `fileUrl` is undefined, so `fileUrl.url` throws. It also fails early when the schema cannot cast `isPayment`. Otherwise it saves the event (`Store.Save`) with `isPending` true, a snapshot of the caller as `parent`, and the request's approval list. It then pushes one summary onto the creator's `eventsCreated`. Next it pushes the same summary onto the `approvalsRequested` of every listed approver in list order (`Store.AssignApprovers`). Only then does it mail every listed approver (`Store.MailApprovers`). A missing creator record or approver record stops the request at that step. The summary's `id` is the creator's id, not the new event's id, as the source writes it (`EventModel.Entry`).
- **List** (`Store.GetEventList`) takes the caller's events in store order and splits them into `published`, `approved` and `approvalPending`. `isPublished` takes precedence over `isApproved`.
- **Fetch** (`Store.GetEventById`) returns the event or not-found.
- **Edit** (`Store.UpdateEvent`) replaces the name, description, thumbnail, date, `isSelection` and payment. It has the same no-upload failure as create. It does not look at the event's status or its owner.

The system's design notes describe more than the code does: approver validation before any
write, notifications attempted for every approver, edits only while pending, no thumbnail
overwritten with null, and an approval-decision state machine. The code does none of these,
and the model follows the code. There is one deliberate exception: the payment amount. The
store uses the corrected rule `EventModel.PaymentOf`, not the rule as written
(`EventModel.PaymentAsWritten`); see Findings.

Schema defaults for `isApproved` and `isPublished` are not visible in the controller. They are
a parameter of the store (`SchemaDefaults`).

## Model

| member | source | states |
|---|---|---|
| `EventModel.PaymentOf` | src/controllers/event.controller.js:28-31 | the stored flag is the schema's cast of `isPayment`; the amount is the supplied one when the flag is true and 0 when it is false; an uncastable flag yields no payment (the corrected payment rule, see Findings) |
| `EventModel.PaymentAsWrittenKeepsAmount` | src/controllers/event.controller.js:28-31 | as written, the form text "false" with amount 100 stores `{isPayment: false, amount: 100}`, which breaks the zero-amount rule |
| `EventModel.PaymentFixDiffers` | src/controllers/event.controller.js:155-158 | the written rule and the corrected rule differ exactly when the cast flag is false and the amount is non-zero |
| `EventModel.ThumbnailOf` | src/controllers/event.controller.js:25 | the thumbnail is the upload's url when that url is truthy, and null otherwise |
| `EventModel.NewEvent` | src/controllers/event.controller.js:17-34 | a new event is pending, its `parent` is the caller's id, name and thumbnail, its approval list is exactly the request's, and its approval/publication flags are the schema defaults |
| `EventModel.Entry` | src/controllers/event.controller.js:39-45 | the summary carries the creator's id, name and thumbnail, status `PENDING` and `isApproved` false |
| `EventModel.Patched` | src/controllers/event.controller.js:147-159 | an edit sets name, description, thumbnail, date, `isSelection` and payment from the request, and leaves `parent`, `approval`, `isPending`, `isApproved` and `isPublished` as they were |
| `EventModel.PatchLastWins` | src/controllers/event.controller.js:147-161 | two edits in a row leave the same event as the second edit alone |
| `FanOut.WithCreated` | src/controllers/event.controller.js:47-49 | the creator's `eventsCreated` grows by exactly the summary; its `approvalsRequested` and every other user record are unchanged |
| `FanOut.AssignAll` | src/controllers/event.controller.js:52-57 | the assignment loop touches no user outside the user collection's existing ids |
| `FanOut.AssignAllAt` | src/controllers/event.controller.js:52-57 | each user's `approvalsRequested` grows by one copy of the summary per occurrence of its id in the approval list (an id listed twice gets two); nothing else in the record changes |
| `FanOut.AfterCreate` | src/controllers/event.controller.js:47-57 | both pushes of a create leave the set of users unchanged |
| `FanOut.AfterCreateAt` | src/controllers/event.controller.js:39-57 | after a create, a user's `eventsCreated` grew by one entry exactly when it is the creator, and its `approvalsRequested` grew by one entry per listing; a user that is neither creator nor listed is unchanged, so the creator's `approvalsRequested` is unchanged unless it lists itself |
| `FanOut.AssignPrefixAt` | src/controllers/event.controller.js:52-57 | when the loop stops at approver k, users listed before k got their entries and a user not listed before k is unchanged |
| `FanOut.Notices` | src/controllers/event.controller.js:59-68 | one email per element of the approval list, in list order, to that approver's address, with the fixed subject, the event name and the club name |
| `Listing.BucketOf` | src/controllers/event.controller.js:89-97 | published exactly when `isPublished`; approved exactly when not published and `isApproved`; pending exactly when neither |
| `Listing.Records` | src/controllers/event.controller.js:84 | the scan returns one record per stored id, in natural order |
| `Listing.RecordsCover` | src/controllers/event.controller.js:84 | the scan holds exactly the stored events |
| `Listing.RecordsAppend` | src/controllers/event.controller.js:36 | saving under a new id adds the event at the end of the natural order |
| `Listing.OwnedBy` | src/controllers/event.controller.js:84 | the query returns exactly the events whose `parent.id` is the caller's |
| `Listing.OwnedByMultiset` | src/controllers/event.controller.js:84 | the query keeps every copy of an event the caller owns and no copy of any other, so equal records stored twice come back twice |
| `Listing.OwnedByCount` | src/controllers/event.controller.js:84 | with every id listed once in the natural order, the query returns exactly as many events as there are ids of the caller's events |
| `Listing.OwnedByIsSubsequence` | src/controllers/event.controller.js:84 | the query keeps store order |
| `Listing.OwnedByAppend` | src/controllers/event.controller.js:84 | after one more save, the query returns its old answer, followed by the new event when the caller owns it |
| `Listing.SelectMembers` | src/controllers/event.controller.js:86-97 | a bucket holds exactly the events of the owner query whose precedence chain selects it |
| `Listing.PartitionIsExact` | src/controllers/event.controller.js:86-97 | the three buckets together are the owned events, each event in exactly one bucket (as multisets), so the sizes add up to the number of owned events |
| `Listing.SelectIsSubsequence` | src/controllers/event.controller.js:89-97 | each bucket keeps store order |
| `Listing.SavedEventListed` | src/controllers/event.controller.js:84-97 | a newly saved event shows up last in its owner's bucket for its flags; the other buckets are unchanged |
| `Listing.PatchedKeepsListing` | src/controllers/event.controller.js:147-159 | an edit moves an event to no other bucket and no other owner |
| `EventController.Store.FindIsExact` | src/controllers/event.controller.js:84 | the owner query returns exactly the stored events of that owner |
| `EventController.Store.FindCount` | src/controllers/event.controller.js:84 | the owner query returns one event per stored id of that owner |
| `EventController.Store.ListSizes` | src/controllers/event.controller.js:84-97 | the sizes of `published`, `approved` and `approvalPending` add up to the number of stored events of the owner |
| `EventController.Store.GetEventById` | src/controllers/event.controller.js:115-128 | found exactly when the id is stored, with the stored event; otherwise not-found |
| `EventController.Store.GetEventList` | src/controllers/event.controller.js:82-97 | the three lists are the buckets of the owner's events in store order; membership follows the precedence chain; together they are exactly the owner's events |
| `EventController.Store.Save` | src/controllers/event.controller.js:36 | the event is stored under a fresh id at the end of the natural order; store invariants are kept |
| `EventController.Store.AssignApprovers` | src/controllers/event.controller.js:52-57 | runs to the end exactly when every listed id has a record, leaving the entries of `AssignAll`; otherwise stops at the first missing id k with the entries for the ids before k |
| `EventController.Store.MailApprovers` | src/controllers/event.controller.js:59-68 | the outbox grows by exactly the approval emails, in list order |
| `EventController.Store.CreateEvent` | src/controllers/event.controller.js:6-80 | no upload or uncastable flag: nothing changes; otherwise the `NewEvent` record is saved under a fresh id and `nextId` advances by one; create never answers not-found; a missing creator gives `CreatorMissing`, a missing approver (with the creator present) gives `ApproverMissing`, and success happens exactly when every record exists; a missing creator leaves users and outbox untouched; a missing approver k leaves the creator's entry and the entries before k and sends no email; success leaves `AfterCreate` users and appends the `Notices` emails |
| `EventController.Store.UpdateEvent` | src/controllers/event.controller.js:137-179 | no upload or uncastable flag: error with no change; unknown id: not-found with no change; otherwise only that event is replaced by its `Patched` form, whatever its status |

## Findings

| source | as written | input that shows it | evidently intended | confidence | as-written member | corrected member |
|---|---|---|---|---|---|---|
| src/controllers/event.controller.js:28-31 | `amount: req.body.isPayment ? req.body.amount : 0` tests the raw form text. The request must be multipart, because without a file `fileUrl.url` throws. So `isPayment` is a string there, and every non-empty string is truthy. The schema then casts `isPayment` to a boolean. | multipart form with `isPayment` = "false" and `amount` = 100: the event stores `payment = {isPayment: false, amount: 100}` | the amount is 0 whenever the stored flag is false | medium, not executed (relies on the schema's boolean cast of "false" to false) | `EventModel.PaymentAsWrittenKeepsAmount` | `EventModel.PaymentOf` |
| src/controllers/event.controller.js:155-158 | the same test in the edit request | the same form sent to the edit request | as above | medium, not executed | `EventModel.PaymentFixDiffers` | `EventModel.PaymentOf` |

The store uses `PaymentOf`, so "no payment means amount 0" is a store invariant (`Store.Valid`).

## Left out

- `index.js` as a whole is not part of this model: the HTTP app setup, port and version endpoint, the PDF certificate rendering and its upload. These are framework wiring, layout and foreign library calls.
- The image upload and the temp-file deletion are left out. The upload's result is an input `Option<Upload>`: None means no file was sent. A failing upload is not modelled.
- `sendEmail` is left out, along with the email body text. Each call becomes one `Mail` record in the outbox, and every send is taken to succeed. A rejected send would end the request and skip the remaining sends; the model does not capture that.
- HTTP status codes, JSON response shapes and `console.error` are left out. Outcomes are `Ok`, `NotFound` or `Failed(reason)`.
- Database ids are natural numbers from a counter. A malformed id string, which would fail the id cast in the database driver, is not modelled.
- Schema validation and casting are modelled only for `isPayment`. Name, description, date, `isSelection` and amount are taken already cast. Amount is an integer, not a floating-point number.
- An `isPayment` field missing from the form is not modelled. The raw text is always present.
- The user lookup in the email loop cannot miss in this sequential model, because the assignment loop has already found every listed id. Async interleaving between requests is not modelled: every await is one step.
- Approval decisions, publishing and status transitions are not modelled. No such code is in the controller.
- A create request without an `approval` field is not modelled; the approval list is always a sequence. In the source the event save and the creator's push happen first. Then the `for … of` loop throws on `undefined`, and those two writes persist.
- EventController.Store.CreateEvent: stores the payment from `PaymentOf`, not from `PaymentAsWritten`. For the form text "false" with a non-zero amount, the code as written stores that amount; the model stores 0 (see Findings).
- EventController.Store.UpdateEvent: the same payment substitution as create.
- EventController.Store.Save: its requirement that the payment is consistent, and the store invariant `Valid` that includes it, hold for the corrected payment rule only.
