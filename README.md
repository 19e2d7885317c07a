# Gym back office — a Dafny model

The system is the back end of a multi-tenant gym back office. Every
record belongs to an organization. The model covers:

- **Subscription lifecycle and dues.** Memberships and personal trainings
  are sold from plan variants. Each one is priced (list price minus
  discount) and dated (start plus the variant's duration). It can be
  cancelled, frozen and unfrozen through one status guard, and it is paid
  in instalments. An instalment may never exceed what is still owed.
- **Reports engine.**
  - Bulk expiry of subscriptions whose end date has passed.
  - Deactivation of members left with nothing active.
  - The list of inactive candidates, with their latest end date.
  - The dues report: per-subscription dues, per-member totals, sorted
    descending, paged, with a grand total.
  - The daily activity snapshot.
- **Analytics.** Revenue, expenses and net profit for a month, the return
  on investment with its payback period, and the month-by-month trend.
- **Catalogs.** Plan types, plan variants, membership and training plans,
  members, trainers, expenses and investments. Each has its uniqueness
  rules and its soft or hard delete.
- **Legacy document-store subsystems.**
  - Users with embedded membership and training plan arrays.
  - The user-membership state machine: assign, renew, cancel, suspend,
    reactivate, and statistics.
  - Trainer assignments, with at most one active trainer per member.
  - The generic CRUD repository: the document transform, pagination,
    bulk update, delete and insert, and existence.
- **Request validators and the error handler.** The validators build
  error lists. The error handler maps a thrown error to an HTTP status and
  message.

## How the model is built

- Relational tables are sequences held by the class `GymStore.Db`. A row's
  id is its position in its table. A table whose rows are hard-deleted
  holds `Option` slots, and a deleted row is `None`.
- The document store is the class `MongoStore.Mongo`. Its `Valid()`
  invariant holds at most one active assignment per member, unique plan
  names per organization, and users that satisfy the two unique indexes of
  the user schema (`MongoStore.UniqueUsers`: no two users of an
  organization share an email, or a Clerk id when both have one).
- `CrudRepository.Collection` models the generic repository over stored
  documents.
- Membership plans appear twice, as in the source. The membership
  feature's plan service (`MembershipPlanService`) works on the collection
  `MongoStore.Mongo.plans` of `MongoStore.MembershipPlan` records, the
  fields that service reads and writes, kept with unique names per
  organization. Its repository loads the model
  src/api/v1/features/membership/models/membership-plan.model.js, which
  is not part of this model. The plan feature's catalogs
  (`PlanCatalogService`) work on generic documents in a
  `CrudRepository.Collection` under the schemas of
  src/api/v1/features/plan/models. The two collections are kept
  separate; nothing relates a write through one service to a read
  through the other.
- The relational repositories inherit the generic repository's Mongoose
  calls, which a Prisma model delegate does not have. Their services are
  modelled with the evidently intended Prisma query behind each inherited
  call; `PrismaDelegate.Inherited` and the `…AsWritten` members state what
  the inherited calls do as written (see Findings).
- A query becomes a filter or a sum over a table. A write becomes a method
  whose `ensures` gives the whole new table in terms of the old one. That
  new table is a function, and lemmas state what the source promises about
  it.
- Errors are `Result.Fail(Err(message, status))`. Express middleware is
  `Gate`: continue with a context, deny with a status and a body, or hand
  an error to the error handler.
- Dates are integer milliseconds since 1 January 1970, and days are
  counted from that date too. A calendar month's index counts months from
  January of year 0. The Date constructor's reading of years 0 to 99 as
  1900 to 1999 is `Calendar.FullYear`. The current time is always a
  parameter.
- Money is an integer. The return-on-investment percentage is a `real`.

## Model

| member | source | states |
|---|---|---|
| Common.Validation | src/api/v1/features/membership/membership.middlewares.js:25-33 | a validator answers 400 "Validation failed" with the collected errors exactly when there is at least one, and calls next otherwise |
| Common.Trim | src/api/v1/features/trainer/services/trainer.service.js:16 | the trimmed text is empty exactly when the text is blank, and otherwise neither starts nor ends with white space |
| SubscriptionHelper.ValidateMemberExists | src/shared/helpers/subscription.helper.js:6-14 | the member row when the id exists, otherwise "Member not found" |
| SubscriptionHelper.ValidatePlanVariant | src/shared/helpers/subscription.helper.js:20-37 | checks in order: not found, then inactive, then (only when a category is expected) the plan type's category; success returns the active variant whose plan type has the expected category |
| SubscriptionHelper.CalculateDates | src/shared/helpers/subscription.helper.js:42-47 | the start is the given date or `now`; the end is exactly `durationDays` days later |
| SubscriptionHelper.CalculatePricing | src/shared/helpers/subscription.helper.js:53-62 | the discount defaults to 0; fails exactly when the discount exceeds the price; otherwise price at purchase = list price, final = price − discount, final ≥ 0 |
| SubscriptionHelper.ValidateStatusTransition | src/shared/helpers/subscription.helper.js:68-88 | passes iff the transition is `Allowed` (cancel unless cancelled, freeze only from active, unfreeze only from frozen, any other action passes), with each rejection's message |
| SubscriptionHelper.StatusMachine | src/shared/helpers/subscription.helper.js:68-88 | the transitions from active, frozen, cancelled and expired, case by case |
| SubscriptionHelper.GuardedActionsAreNotRepeatable | src/shared/helpers/subscription.helper.js:68-88 | repeating cancel, freeze or unfreeze right after it succeeded is refused |
| SubscriptionHelper.CalculateDues | src/shared/helpers/subscription.helper.js:93-104 | due = max(0, final − paid), total paid = paid, fully paid ⇔ paid ≥ final ⇔ due = 0 |
| SubscriptionHelper.ValidatePaymentAmount | src/shared/helpers/subscription.helper.js:110-121 | "already fully paid" when paid ≥ final, "exceeds" when the amount is over the balance; passes iff paid < final and paid + amount ≤ final |
| SubscriptionHelper.AcceptedPaymentKeepsDuesConsistent | src/shared/helpers/subscription.helper.js:93-121 | an accepted payment lowers the due by exactly its amount, and settles the subscription iff it equals the balance |
| SubscriptionHelper.DuesScenario | src/shared/helpers/subscription.helper.js:93-121 | price 100 with 40 paid: 60 due, 61 refused, 60 accepted, nothing accepted once fully paid |
| PrismaDelegate.Inherited | src/shared/repositories/crud.repository.js:48-330 | an inherited operation returns before calling the model exactly when it is an update or bulk insert handed no data, or a bulk update handed no data or no filter; a bulk delete with no filter raises "Filter required for deleteMany"; otherwise a call of a method a Prisma delegate lacks raises "is not a function", and one it has is refused as an invalid invocation |
| PrismaDelegate.Raised | src/shared/repositories/crud.repository.js:48-330 | the error an inherited operation handed keys raises on a Prisma delegate |
| PrismaDelegate.ReadsAndRowWritesAreNotFunctions | src/shared/repositories/crud.repository.js:48-250 | every inherited lookup, listing, count and row write (update, soft and hard delete) raises "is not a function" on a Prisma delegate, and an inherited create is refused as an invalid invocation |
| SubscriptionService.CheckCreateRequest | src/api/v1/features/membership/services/membership.service.js:27-35 | passes iff org, member and plan variant ids are given (and, for a training, a trainer name); otherwise the first missing one's error, in that order; the training service checks the trainer name after the three ids |
| SubscriptionService.NewSubscription | src/api/v1/features/membership/services/membership.service.js:37-63 | the row is written only after the request checks, the member lookup and the variant check for the kind's own category; it is active, takes its dates and prices from the helpers, `autoRenew` defaults to false and `notes` to null; a training row also stores the trainer name, a membership row has none |
| SubscriptionService.InitialPayment | src/api/v1/features/membership/services/membership.service.js:70-85 | a first payment exists iff the amount is positive; it is "paid", paid at `now`, linked to the new row, method defaulting to "cash" |
| SubscriptionService.Create | src/api/v1/features/membership/services/membership.service.js:26-93 | on failure nothing is written; on success the row is appended to the kind's table and the optional first payment to the payments, in one step, linked by membership or training id; the other kind's table is untouched |
| SubscriptionService.CreatedPaidTotal | src/api/v1/features/membership/services/membership.service.js:70-85 | right after a create, the new row's paid total is the first payment's amount, or 0 |
| SubscriptionService.InitialPaymentSkipsBalanceCheck | src/api/v1/features/membership/services/membership.service.js:44-85 | the first payment is not checked against the final price: price 100, discount 90 and a first payment of 50 is accepted though the balance check would refuse it |
| SubscriptionService.GetOrThrow | src/api/v1/features/membership/services/membership.service.js:14-24 | the row when the id exists, otherwise "Membership not found" / "Training not found" |
| SubscriptionService.DuesOf | src/api/v1/features/membership/services/membership.service.js:121-127 | the dues of an existing row over the paid total of the payments linked to it; missing ids fail; the training service computes training dues the same way |
| SubscriptionService.Updated | src/api/v1/features/membership/services/membership.service.js:132-139 | exactly the supplied fields among status, autoRenew, notes and endDate change, and for a training also the trainer name; every other field is kept |
| SubscriptionService.UpdateBypassesGuard | src/api/v1/features/membership/services/membership.service.js:129-142 | an update may set a status the guard would refuse (a cancelled row made active) (corrected; see Findings) |
| SubscriptionService.EmptyUpdateIsIdentity | src/api/v1/features/membership/services/membership.service.js:132-140 | an update with nothing supplied leaves the row as it was |
| SubscriptionService.Update | src/api/v1/features/membership/services/membership.service.js:129-142 | fails for a missing id and writes nothing; otherwise the row becomes `Updated` and nothing else changes; the same for trainings (corrected; see Findings) |
| SubscriptionService.Transition | src/api/v1/features/membership/services/membership.service.js:144-166 | missing id fails; otherwise the guard runs and, if it passes, only the status becomes cancelled, frozen or active; the training service does the same with entity name "Training" (corrected; see Findings) |
| SubscriptionService.FreezeThenUnfreeze | src/api/v1/features/membership/services/membership.service.js:152-166 | freezing then unfreezing an active row succeeds twice and restores the table exactly (the end date is not extended) (corrected; see Findings) |
| SubscriptionService.UpdateAsWritten | src/api/v1/features/membership/services/membership.service.js:129-142 | as written: an unknown id is not found; an update with nothing copied reads the row back unchanged, as the corrected update does; every other update fails on the missing `findByIdAndUpdate` and writes nothing |
| SubscriptionService.TransitionAsWritten | src/api/v1/features/membership/services/membership.service.js:144-166 | as written, a transition never succeeds: the guard refuses as in `Transition`, and what it lets through fails on the missing `findByIdAndUpdate` |
| PaymentService.NewPayment | src/api/v1/features/membership/services/payment.service.js:36-46 | the row links to the given subscription (by membership id, or by training id in the training-payment service) or to none, method defaults to "cash", status to "paid", and a paid-at time is set iff the caller's status is literally "paid" |
| PaymentService.CheckRecord | src/api/v1/features/membership/services/payment.service.js:10-34 | rejects in order a missing org, a missing member id, an absent or non-positive amount, an unknown member, an unknown subscription; passes iff all checks hold and, with a subscription, the amount fits its balance; the training-payment service makes the same checks, with "Training not found" and the training's paid total |
| PaymentService.Record | src/api/v1/features/membership/services/payment.service.js:9-49 | a rejected request writes nothing; an accepted one appends exactly `NewPayment` and returns its id; the same for training payments (corrected; see Findings) |
| PaymentService.RecordAsWritten | src/api/v1/features/membership/services/payment.service.js:9-49 | as written, no payment is recorded: the checks refuse as in `CheckRecord`, and a request they pass is refused by the delegate's argument validation |
| PaymentService.RecordedPaymentStaysWithinPrice | src/api/v1/features/membership/services/payment.service.js:22-46 | an accepted linked payment never takes the subscription's paid total past its final price; an unlinked one changes no subscription's total |
| PaymentService.DefaultedStatusHasNoPaidAt | src/api/v1/features/membership/services/payment.service.js:42-45 | a payment whose status defaulted to "paid" has no paid-at time |
| PaymentService.GetPayment | src/api/v1/features/membership/services/payment.service.js:51-64 | the payment when the id exists, otherwise "Payment not found" (corrected; see Findings) |
| PaymentService.WithStatus | src/api/v1/features/membership/services/payment.service.js:101-104 | the status is replaced; paid-at becomes `now` for "paid" and is otherwise kept, never cleared; nothing else changes |
| PaymentService.UpdateStatus | src/api/v1/features/membership/services/payment.service.js:95-107 | unknown ids fail and write nothing; otherwise only that payment becomes `WithStatus`; the same for training payments (corrected; see Findings) |
| PaymentService.StatusChangeMovesOneTotal | src/api/v1/features/membership/services/payment.service.js:95-107 | a status change moves only its own subscription's paid total, by the amount entering or leaving "paid" |
| PaymentService.StatusChangeCanOverpay | src/api/v1/features/membership/services/payment.service.js:95-107 | no balance check is repeated on a status change: two accepted payments of 100 on a price of 100 end with 200 paid (corrected; see Findings) |
| GymStore.PaidSumAppend | src/api/v1/features/membership/repositories/payment.repository.js:49-61 | appending a payment adds exactly its own share to a subscription's paid total |
| GymStore.PaidSumUpdate | src/api/v1/features/membership/repositories/payment.repository.js:49-61 | replacing one payment changes a paid total by the difference of the two shares |
| GymStore.PaidSumOtherLink | src/api/v1/features/training/repositories/training-payment.repository.js:49-61 | replacing a payment by one that is also not linked to a subscription leaves that subscription's paid total alone |
| ReportsRepository.ExpireAll | src/api/v1/features/reports/repositories/reports.repository.js:10-17 | exactly the rows of the org that are active and ended before `now` become expired; every other row is untouched; none is left stale |
| ReportsRepository.StaleCountZero | src/api/v1/features/reports/repositories/reports.repository.js:10-18 | the count is 0 when no row is stale |
| ReportsRepository.StaleCountPositive | src/api/v1/features/reports/repositories/reports.repository.js:10-18 | the count is positive when some row is stale |
| ReportsRepository.ExpireIdempotent | src/api/v1/features/reports/repositories/reports.repository.js:8-36 | a second expiry at the same time changes nothing and counts 0 |
| ReportsRepository.ExpireStale | src/api/v1/features/reports/repositories/reports.repository.js:8-36 | returns the number of stale rows and leaves the table `ExpireAll`; the other kind's table is untouched; memberships and trainings alike |
| ReportsRepository.IdleUpTo | src/api/v1/features/reports/repositories/reports.repository.js:43-52 | the ids, in order, of the members of the org that are active and have no active membership and no active training |
| ReportsRepository.MembersWithNoActiveSubs | src/api/v1/features/reports/repositories/reports.repository.js:42-53 | a member is listed iff it is idle; ids are distinct; the list is empty iff no member is idle |
| ReportsRepository.Deactivated | src/api/v1/features/reports/repositories/reports.repository.js:60-63 | exactly the listed members get `isActive` false; the others are untouched |
| ReportsRepository.DeactivateMembers | src/api/v1/features/reports/repositories/reports.repository.js:58-65 | an empty list returns 0 without a write; otherwise the members become `Deactivated` and the count is the number of existing ids listed |
| ReportsRepository.LatestEnd | src/api/v1/features/reports/repositories/reports.repository.js:88-97 | none iff the member has no row; otherwise the end date of one of its rows, and no row of it ends later |
| ReportsRepository.FindInactiveCandidates | src/api/v1/features/reports/repositories/reports.repository.js:71-114 | a negative skip (a page before the first with a positive limit, or past the first with a negative one) is refused as an invalid `findMany`; otherwise the rows are the idle members in Prisma's skip/take window, at most the size of the limit, each with its latest membership and training end, and the metadata counts every idle member; from page 1 with a positive limit the window is the page's slice |
| ReportsRepository.SubDuesExact | src/api/v1/features/reports/repositories/reports.repository.js:153-170 | the entries are exactly the member's subscriptions that are not fully paid, each with its paid total and positive due = final price − paid |
| ReportsRepository.SubTotalPositive | src/api/v1/features/reports/repositories/reports.repository.js:150-170 | a member's total over a table is never negative, and positive iff it owes on some subscription there |
| ReportsRepository.MemberEntry | src/api/v1/features/reports/repositories/reports.repository.js:191-205 | the entry is the member's, and its total due is the membership total plus the training total |
| ReportsRepository.ListedSound | src/api/v1/features/reports/repositories/reports.repository.js:124-207 | every listed entry is a member that passes the org and member filter, carries its own entry, and has a positive total |
| ReportsRepository.ListedComplete | src/api/v1/features/reports/repositories/reports.repository.js:191-206 | every member that passes the filter with a positive total is listed |
| ReportsRepository.EntryPositiveIffOwes | src/api/v1/features/reports/repositories/reports.repository.js:191-192 | a member's total is positive iff it owes on some membership or training |
| ReportsRepository.ListedIffOwes | src/api/v1/features/reports/repositories/reports.repository.js:124-207 | a member is listed iff it passes the filter and owes on some membership or training |
| ReportsRepository.CollectDue | src/api/v1/features/reports/repositories/reports.repository.js:154-169 | one inner-loop turn: the paid total, the due and, when positive and the member's, its entry |
| ReportsRepository.CollectSubDues | src/api/v1/features/reports/repositories/reports.repository.js:150-189 | the inner loop returns the member's entries and their total for the whole table |
| ReportsRepository.CollectRow | src/api/v1/features/reports/repositories/reports.repository.js:149-206 | one outer-loop turn adds the member's entry iff it passes the filter and its total is positive |
| ReportsRepository.CollectDues | src/api/v1/features/reports/repositories/reports.repository.js:148-207 | the outer loop builds exactly the `Listed` report |
| ReportsRepository.InsertDesc | src/api/v1/features/reports/repositories/reports.repository.js:210 | inserting adds one entry |
| ReportsRepository.InsertDescPerm | src/api/v1/features/reports/repositories/reports.repository.js:210 | inserting adds exactly that entry to the multiset |
| ReportsRepository.InsertDescAtMost | src/api/v1/features/reports/repositories/reports.repository.js:210 | inserting keeps a bound on the totals |
| ReportsRepository.InsertDescSorted | src/api/v1/features/reports/repositories/reports.repository.js:210 | inserting into a list sorted by total, highest first, keeps it sorted |
| ReportsRepository.SortDesc | src/api/v1/features/reports/repositories/reports.repository.js:210 | sorting keeps the length |
| ReportsRepository.SortDescPerm | src/api/v1/features/reports/repositories/reports.repository.js:210 | sorting is a permutation |
| ReportsRepository.SortDescSorted | src/api/v1/features/reports/repositories/reports.repository.js:210 | the sorted list has the totals highest first |
| ReportsRepository.TotalOfSnoc | src/api/v1/features/reports/repositories/reports.repository.js:215 | the grand total of a list with one more entry grows by its total |
| ReportsRepository.TotalOfInsert | src/api/v1/features/reports/repositories/reports.repository.js:210-215 | inserting adds the entry's total to the grand total |
| ReportsRepository.TotalOfSort | src/api/v1/features/reports/repositories/reports.repository.js:210-215 | sorting does not change the grand total |
| ReportsRepository.GetMembersWithDues | src/api/v1/features/reports/repositories/reports.repository.js:120-232 | the page is the `slice` of the sorted list from offset (page−1)·limit to offset+limit, negative ends counting from the end, itself sorted; the count, grand total and pagination are over the whole list, not the page |
| ReportsRepository.PageSorted | src/api/v1/features/reports/repositories/reports.repository.js:210-214 | a page of a sorted list is sorted |
| ReportsService.AfterExpiry | src/api/v1/features/reports/services/reports.service.js:10-13 | both subscription tables are expired; members and payments are untouched |
| ReportsService.ExpireSubscriptions | src/api/v1/features/reports/services/reports.service.js:8-26 | the store ends as `AfterRun`; the counts are the stale memberships, the stale trainings, and the members idle after expiry |
| ReportsService.ActiveMembersHaveActiveSubs | src/api/v1/features/reports/services/reports.service.js:16-19 | after a run, every member of the org still active has an active membership or an active training |
| ReportsService.SecondRunIsNoop | src/api/v1/features/reports/services/reports.service.js:8-26 | a second run at the same time changes nothing and reports three zero counts |
| ReportsService.LastSubscriptionEnd | src/api/v1/features/reports/services/reports.service.js:44-54 | none iff neither date exists; otherwise one of the two dates, and no earlier than either |
| ReportsService.CandidateLatest | src/api/v1/features/reports/services/reports.service.js:39-54 | a candidate's last subscription end is the latest end over all its memberships and trainings, or none when it has neither |
| ReportsService.GetInactiveCandidates | src/api/v1/features/reports/services/reports.service.js:31-73 | a window the query refuses is passed on as its error, for exactly the same pages and limits; otherwise one row per member of the window, each idle with its latest end over both kinds, and the pagination over all idle members; from page 1 with a positive limit, at most `limit` rows, the page's slice |
| ReportsService.DayStart | src/api/v1/features/reports/services/reports.service.js:93-94 | the snapshot date is a whole day, and the day that holds `now` |
| ReportsService.DayStartUnique | src/api/v1/features/reports/services/reports.service.js:93-94 | that day start is the only such day, so snapshots taken the same day share one key |
| ReportsService.TakeActivitySnapshot | src/api/v1/features/reports/services/reports.service.js:91-103 | the counts are copied, newly expired = expired memberships + expired trainings (each defaulting to 0), and the snapshot is upserted under (org, day start) |
| CrudRepository.Plain | src/shared/repositories/crud.repository.js:34-39 | an ObjectId value becomes its hex string; every other value is kept |
| CrudRepository.Transform | src/shared/repositories/crud.repository.js:19-41 | null passes through, an array stays an array of the same length, one document stays one document |
| CrudRepository.TransformDocument | src/shared/repositories/crud.repository.js:19-41 | the step-by-step version (array map, per-key loop over the fields) computes exactly `Transform` |
| CrudRepository.TransformFields | src/shared/repositories/crud.repository.js:26-40 | a truthy `_id` moves to `id` as its text, a falsy one stays; `__v` is dropped unless undefined; every other key is kept with ObjectIds as strings; no ObjectId is left |
| CrudRepository.TransformIdempotent | src/shared/repositories/crud.repository.js:19-41 | transforming a transformed document changes nothing |
| CrudRepository.Raw | src/shared/repositories/crud.repository.js:65 | the lean document carries its `_id` |
| CrudRepository.IndexOf | src/shared/repositories/crud.repository.js:65 | the position of the document with the id, or none iff there is none |
| CrudRepository.Merge | src/shared/repositories/crud.repository.js:115-119 | the data over the stored fields, `updatedAt` stamped with `now`, every other field kept |
| CrudRepository.Matching | src/shared/repositories/crud.repository.js:173 | the documents the filter selects, in order |
| CrudRepository.Remaining | src/shared/repositories/crud.repository.js:306 | the documents the filter does not select; with the selected ones they account for every document |
| CrudRepository.UpdatedAll | src/shared/repositories/crud.repository.js:283-286 | every selected document gets the merged update; the rest are untouched; ids are kept |
| CrudRepository.ModifiedCountBounds | src/shared/repositories/crud.repository.js:283-288 | the modified count is at most the selected count, and equal to it when no document already carries this update stamp |
| CrudRepository.FindOne | src/shared/repositories/crud.repository.js:200-208 | null iff nothing matches; otherwise the first match, transformed |
| CrudRepository.Get | src/shared/repositories/crud.repository.js:63-70 | null iff no document has the id |
| CrudRepository.GetAfterCreate | src/shared/repositories/crud.repository.js:48-70 | after a create, `get` finds the new document under its id and every other id as before |
| CrudRepository.ExistsIff | src/shared/repositories/crud.repository.js:261-269 | `exists` holds iff some document matches the filter |
| CrudRepository.TransformAll | src/shared/repositories/crud.repository.js:187-188 | each document transformed, in order |
| CrudRepository.Find | src/shared/repositories/crud.repository.js:169-193 | a negative offset is refused by the database; otherwise the selected documents from `offset` on, at most limit of them (0 meaning no limit, a negative limit counting as its absolute value), each transformed |
| CrudRepository.FindWithPagination | src/shared/repositories/crud.repository.js:216-239 | fails with the negative-skip error exactly when the offset is negative (a page before the first with a positive limit, or past the first with a negative one); otherwise at most the size of the limit documents, and the pagination over every selected document |
| CrudRepository.PaginationIsThePageSlice | src/shared/repositories/crud.repository.js:216-221 | skip (page−1)·limit then take limit is the page slice [(page−1)·limit, page·limit) of the selected documents |
| CrudRepository.SkipTakeIsSlice | src/shared/repositories/crud.repository.js:179-185 | skipping `offset` and taking `limit` is the slice from `offset` to `offset + limit` |
| CrudRepository.Collection.Create | src/shared/repositories/crud.repository.js:48-56 | the document is appended under its fresh id and returned transformed |
| CrudRepository.Collection.Update | src/shared/repositories/crud.repository.js:109-126 | empty data returns null and writes nothing; an unknown id returns null; otherwise only that document is merged and stamped, and returned transformed |
| CrudRepository.Collection.Destroy | src/shared/repositories/crud.repository.js:133-146 | a soft delete: the document stays, with `isActive` false and `updatedAt` stamped, returned untransformed |
| CrudRepository.Collection.HardDelete | src/shared/repositories/crud.repository.js:153-161 | true iff a document had the id, and then exactly it is removed |
| CrudRepository.Collection.UpdateMany | src/shared/repositories/crud.repository.js:277-293 | empty data or an empty filter returns 0 with no write; otherwise `UpdatedAll` and the modified count |
| CrudRepository.Collection.DeleteMany | src/shared/repositories/crud.repository.js:300-312 | an empty filter throws and writes nothing; otherwise the selected documents are removed and counted |
| CrudRepository.Collection.InsertMany | src/shared/repositories/crud.repository.js:319-331 | a non-array or empty array returns [] with no write; otherwise the documents are appended under fresh ids and returned with their `_id` |
| CrudRepository.Fresh | src/shared/repositories/crud.repository.js:325 | each data item under its own id |
| CrudRepository.RemainingKeepsIds | src/shared/repositories/crud.repository.js:306 | removing documents keeps ids unique |
| CrudRepository.DestroyKeepsDocument | src/shared/repositories/crud.repository.js:133-141 | after a soft delete the document is still found under its id, now inactive |
| CrudRepository.UniqueIndex | src/shared/repositories/crud.repository.js:65 | with unique ids, the document with an id is found at its position |
| CrudRepository.DeleteManyLeavesNoMatch | src/shared/repositories/crud.repository.js:300-312 | afterwards nothing matches the filter, and every document that did not match is still there |
| CrudRepository.NoneMatch | src/shared/repositories/crud.repository.js:173 | a list with no matching document selects nothing |
| Pagination.CeilDiv | src/shared/repositories/crud.repository.js:230 | `Math.ceil(total / limit)`: for a positive limit the least count of `limit`-sized pages that holds `total` rows, for a negative one the ceiling of the negative quotient |
| Pagination.MulMono | src/shared/repositories/crud.repository.js:219 | offsets grow with the page number |
| Pagination.Paginate | src/shared/repositories/crud.repository.js:224-233 | the page, limit and total are echoed; `pages` is the ceiling of total over limit; `hasNext` iff `page * limit < total`, which for a positive limit is iff the page is before the last; `hasPrev` iff it is past the first |
| Pagination.HasNextIff | src/shared/repositories/crud.repository.js:230-231 | `page * limit < total` holds exactly when the page is before the page count |
| Pagination.SliceIndex | src/api/v1/features/reports/repositories/reports.repository.js:214 | how `slice` reads an index: negative counts from the end, and the result is clamped to the length |
| Pagination.JsSlice | src/api/v1/features/reports/repositories/reports.repository.js:214 | `slice(start, end)`: the rows between the two clamped indexes, in order, none when they cross |
| Pagination.FindManyWindow | src/api/v1/features/reports/repositories/reports.repository.js:72-86 | Prisma's `skip`/`take`: a non-negative take is the slice from `skip`, a negative one the `-take` rows ending `skip` rows before the end, in list order; never more rows than the size of `take` |
| Pagination.FromTheEnd | src/api/v1/features/reports/repositories/reports.repository.js:72-86 | reading the reversed list with skip and take and reversing back is the slice that ends `skip` rows before the end |
| Pagination.WindowWithin | src/api/v1/features/reports/repositories/reports.repository.js:72-86 | every row of a `findMany` window is a row of the list |
| Pagination.FindManyIsPageOf | src/api/v1/features/reports/repositories/reports.repository.js:72-86 | from page 1 with a positive limit, Prisma's window is the page's slice |
| Pagination.NegativeOffset | src/api/v1/features/reports/repositories/reports.repository.js:72 | the offset (page−1)·limit is negative exactly for a page before the first with a positive limit or a page past the first with a negative one |
| Pagination.PageOf | src/api/v1/features/reports/repositories/reports.repository.js:121-214 | the rows of a page, at most `limit` of them |
| Pagination.RowIsOnItsPage | src/api/v1/features/reports/repositories/reports.repository.js:121-229 | every row lies on page ⌊i/limit⌋+1 at position i mod limit, and that page is within the page count |
| Pagination.PageZeroIsEmpty | src/api/v1/features/reports/repositories/reports.repository.js:120-214 | page 0, which nothing refuses, is always empty |
| Calendar.DaysInMonth | src/api/v1/features/financials/services/analytics.service.js:30 | every month has 28 to 31 days, and February has 29 exactly in a Gregorian leap year |
| Calendar.Normalize | src/api/v1/features/financials/services/analytics.service.js:29 | `new Date(y, m, …)` with a month index outside 0..11 rolls into the neighbouring years and keeps the linear month index |
| Calendar.FullYear | src/api/v1/features/financials/services/analytics.service.js:29-30 | the Date constructor takes a year 0 to 99 as 1900 to 1999 and every other year as itself |
| Calendar.NormalizeByIndex | src/api/v1/features/financials/services/analytics.service.js:104 | the normalised month is the only valid month with that linear index |
| Calendar.NextMonth | src/api/v1/features/financials/services/analytics.service.js:111 | the month after a month is a valid month one index later |
| Calendar.NormalizeNext | src/api/v1/features/financials/services/analytics.service.js:29-30 | `new Date(y, m + 1, …)` is the month after `new Date(y, m, …)` |
| Calendar.MonthDays | src/api/v1/features/financials/services/analytics.service.js:111 | the month with a given linear index has 28 to 31 days |
| Calendar.StartStep | src/api/v1/features/financials/services/analytics.service.js:110-111 | each month starts where the days of the previous one run out |
| Calendar.MonthDaysOf | src/api/v1/features/financials/services/analytics.service.js:110-111 | the month at a linear index is the calendar month it names |
| Calendar.MonthLength | src/api/v1/features/financials/services/analytics.service.js:34-35 | from `new Date(y, m, 1)` to `new Date(y, m + 1, 0, 23, 59, 59, 999)` is exactly the month's days in milliseconds |
| Calendar.MonthsTile | src/api/v1/features/financials/services/analytics.service.js:110-111 | each month's window ends one millisecond before the next month's starts, and is not empty |
| Calendar.MonthStartMonotone | src/api/v1/features/financials/services/analytics.service.js:103-113 | a later month's window lies wholly after an earlier month's |
| Calendar.YearLength | src/api/v1/features/financials/services/analytics.service.js:22 | January 1 to the end of December 31 is exactly the year's days in milliseconds |
| Calendar.YearDaysSum | src/api/v1/features/financials/services/analytics.service.js:22 | the twelve months add up to the year's days |
| Calendar.LastDayStart | src/api/v1/features/financials/services/analytics.service.js:30 | `new Date(y, m, 0)` is the start of the month's last day, one day less a millisecond before the month's end |
| Calendar.NumberOf | src/api/v1/features/financials/services/analytics.service.js:28 | `Number` of blank text is 0 and of a run of decimal digits its value; every other text is taken as NaN (the other numeric forms `Number` accepts are left out) |
| Calendar.Split | src/api/v1/features/financials/services/analytics.service.js:28 | `split` always yields at least one part |
| Calendar.SplitNoSep | src/api/v1/features/financials/services/analytics.service.js:28 | a text without the separator splits into itself |
| Calendar.SplitAt | src/api/v1/features/financials/services/analytics.service.js:28 | a separator after a separator-free prefix splits the text there |
| Calendar.ParseYearMonth | src/api/v1/features/financials/services/analytics.service.js:28 | a period reads as a year and a month only when it has a second part |
| Calendar.DecimalOfNat | src/api/v1/features/financials/services/analytics.service.js:44 | the printed digits of a number read back as that number |
| Calendar.Pad2Digits | src/api/v1/features/financials/services/analytics.service.js:44 | `padStart(2, "0")` of a month number is digits without a "-", reading back as that number |
| Calendar.NumberOfDigits | src/api/v1/features/financials/services/analytics.service.js:28 | `Number` of a run of digits is its decimal value |
| Calendar.FormatPeriodText | src/api/v1/features/financials/services/analytics.service.js:44 | the default period is the year's digits, "-", and the two-digit month |
| Calendar.PeriodParts | src/api/v1/features/financials/services/analytics.service.js:28-44 | the default period splits on "-" into exactly the year's digits and the month's digits |
| Calendar.FormatParseRoundTrip | src/api/v1/features/financials/services/analytics.service.js:28-44 | the period text printed for a month is read back by the summary as that year and 1-based month |
| Analytics.Revenue | src/api/v1/features/financials/services/analytics.service.js:9-19 | with no paid payment of the org whose `paidAt` lies in the window, the revenue is 0 |
| Analytics.RevenueSplit | src/api/v1/features/financials/services/analytics.service.js:9-19 | revenue over a window is the sum of the revenue over its two halves |
| Analytics.ExpenseSum | src/api/v1/features/financials/repositories/expense.repository.js:36-42 | with no expense of the org dated in the window, the sum is 0 |
| Analytics.ExpenseSplit | src/api/v1/features/financials/repositories/expense.repository.js:36-42 | expenses over a window are the sum of those over its two halves |
| Analytics.TotalInvested | src/api/v1/features/financials/repositories/investment.repository.js:30-38 | with no investment of the org dated up to the given instant, the total is 0 |
| Analytics.EarliestDate | src/api/v1/features/financials/repositories/investment.repository.js:43-50 | none iff the org has no investment; otherwise the date of one of its investments, and no investment of the org is earlier |
| Analytics.MonthWindow | src/api/v1/features/financials/services/analytics.service.js:29-35 | a month's window starts at its first millisecond and ends one millisecond before the next month |
| Analytics.SummaryWindowAsWritten | src/api/v1/features/financials/services/analytics.service.js:25-36 | as written: no month text means the current month, with a two-digit clock year read as 19xx; a text that does not read as year and month is an invalid date; a year 0 to 99 in the text is read as 1900 to 1999 |
| Analytics.CurrentMonth | src/api/v1/features/financials/services/analytics.service.js:33-35 | the default month is the clock's month, in the year the Date constructor makes of the clock's year, which is at least 100 for any year from 0 on |
| Analytics.FullYearRejectedAsWritten | src/api/v1/features/financials/services/analytics.service.js:21-30 | the documented bare year "YYYY" is read as an invalid date |
| Analytics.YearWindow | src/api/v1/features/financials/services/analytics.service.js:22 | from the first millisecond of January to the last of December |
| Analytics.SummaryWindow | src/api/v1/features/financials/services/analytics.service.js:21-36 | a bare year selects that whole year (a two-digit one in the 1900s); every input the code reads succeeds as written |
| Analytics.FullYearWindow | src/api/v1/features/financials/services/analytics.service.js:21-36 | a bare year's window, for the year the Date constructor makes of it, is exactly that year's days and ends where the next year begins |
| Analytics.YearSpan | src/api/v1/features/financials/services/analytics.service.js:21-24 | a year's window ends at the last instant before the next year's 1 January and is as long as that year's days |
| Analytics.BareYearText | src/api/v1/features/financials/services/analytics.service.js:22 | a year's printed digits are a bare year |
| Analytics.MonthTextSelectsMonth | src/api/v1/features/financials/services/analytics.service.js:28-30 | a "YYYY-MM" period, as the service prints it, selects exactly that month for every year from 100 on |
| Analytics.TwoDigitYearText | src/api/v1/features/financials/services/analytics.service.js:28-30 | a printed period of a year 0 to 99 selects the same month of the 1900s |
| Analytics.PeriodWindow | src/api/v1/features/financials/services/analytics.service.js:28-30 | a printed "YYYY-MM" period is read back as the month the Date constructor makes of its year and month |
| Analytics.PeriodText | src/api/v1/features/financials/services/analytics.service.js:44 | a printed period is present, is not a bare year, and reads back as its month |
| Analytics.GetMonthlySummary | src/api/v1/features/financials/services/analytics.service.js:25-51 | an unreadable period fails; otherwise revenue and expenses are those of the window, the profit is their difference, and the period is the text given or the current month printed (corrected; see Findings) |
| Analytics.DefaultPeriodRoundTrip | src/api/v1/features/financials/services/analytics.service.js:25-51 | for a clock year from 0 on, asking later for the period the default summary printed gives the same summary, which starts at the current month |
| Analytics.MonthsElapsed | src/api/v1/features/financials/services/analytics.service.js:73-77 | at least one, and otherwise the whole calendar months between the first investment and now |
| Analytics.PaybackMonths | src/api/v1/features/financials/services/analytics.service.js:78-79 | present iff the net profit is positive, and then the least whole number of months whose average profit covers the investment |
| Analytics.PaybackCoversInvestment | src/api/v1/features/financials/services/analytics.service.js:78-79 | `p` months of average profit cover the investment and `p - 1` do not |
| Analytics.GetRoi | src/api/v1/features/financials/services/analytics.service.js:57-93 | all-time revenue, expenses and investment up to now; profit is their difference; ROI present iff something was invested; payback present iff invested, dated and profitable, and then by the ceiling of the months between the calendar months of the earliest investment and now, where the calendar maps each instant into the month that holds it |
| Analytics.TrendMonth | src/api/v1/features/financials/services/analytics.service.js:104-106 | the `i`-th month of the trend is `months - 1 - i` months before now |
| Analytics.Entry | src/api/v1/features/financials/services/analytics.service.js:116-127 | an entry names its month 1-based and carries that month's revenue, expenses and their difference |
| Analytics.GetTrends | src/api/v1/features/financials/services/analytics.service.js:100-130 | as many entries as asked (12 by default, none for a negative count), consecutive months ending with the current one, each with its own month's sums |
| Analytics.TrendShape | src/api/v1/features/financials/services/analytics.service.js:103-129 | each entry is its month, in range, with that month's sums |
| Analytics.ConsecutiveEntries | src/api/v1/features/financials/services/analytics.service.js:103-113 | consecutive entries are consecutive months whose windows abut |
| Analytics.TrendIsTiled | src/api/v1/features/financials/services/analytics.service.js:103-113 | the trend's windows are non-empty and each starts right after the one before |
| Analytics.TrendRevenueTotal | src/api/v1/features/financials/services/analytics.service.js:100-130 | the trend's revenue adds up to the revenue over its whole span |
| Analytics.TrendExpenseTotal | src/api/v1/features/financials/services/analytics.service.js:100-130 | the trend's expenses add up to the expenses over its whole span |
| Analytics.TwelveMonthTrendIsTheYear | src/api/v1/features/financials/services/analytics.service.js:22-130 | a 12-month trend taken in December starts in January, and its totals are the full-year summary's revenue and expenses |
| ExpenseService.ExpenseRow | src/api/v1/features/financials/services/expense.service.js:4-12 | the stored row carries the org, amount, category and date given, and a description exactly when a non-empty one was given |
| ExpenseService.CreateExpense | src/api/v1/features/financials/services/expense.service.js:4-12 | the row is appended under a fresh id and nothing else changes |
| ExpenseService.CreatedExpenseCounts | src/api/v1/features/financials/services/expense.service.js:4-12 | a new expense adds its amount to its own org's sum over every window holding its date, and to no other sum |
| ExpenseService.ListFilter | src/api/v1/features/financials/services/expense.service.js:14-21 | no month means no date filter; an unreadable month is an invalid date; a month is bounded by its first instant and the start of its last day, with a year 0 to 99 read as 1900 to 1999 |
| ExpenseService.Select | src/api/v1/features/financials/repositories/expense.repository.js:8-19 | exactly the org's rows within the date bounds, in table order |
| ExpenseService.GetExpenses | src/api/v1/features/financials/services/expense.service.js:14-23 | an unreadable month fails; otherwise exactly the org's expenses the month's bounds admit |
| ExpenseService.ListStopsAtLastDay | src/api/v1/features/financials/services/expense.service.js:20 | an expense later in the last day of a month is in that month's summary window but not in its month list |
| ExpenseService.MonthListFilter | src/api/v1/features/financials/services/expense.service.js:18-20 | a printed "YYYY-MM" of a year from 100 on lists from the month's first instant to the start of its last day |
| ExpenseService.Patched | src/api/v1/features/financials/services/expense.service.js:32-36 | the supplied fields are replaced and every other field, and the org, are kept |
| ExpenseService.PatchLaws | src/api/v1/features/financials/services/expense.service.js:32-37 | an empty update changes nothing, and the same update twice is the update once |
| ExpenseService.UpdateExpense | src/api/v1/features/financials/services/expense.service.js:25-39 | a row that is missing or another org's is a 404 error and nothing changes; otherwise only that row is patched and returned |
| ExpenseService.DeleteExpense | src/api/v1/features/financials/services/expense.service.js:41-49 | a row that is missing or another org's is a 404 error and nothing changes; otherwise that row alone is removed |
| ExpenseService.DeletedIsGone | src/api/v1/features/financials/services/expense.service.js:41-49 | after a delete the id is not found, and every other row is found exactly as before |
| ExpenseService.OtherOrgIsNotFound | src/api/v1/features/financials/services/expense.service.js:26-31 | another org's row is never found, so never updated or deleted |
| ExpenseService.DeletedExpenseUncounts | src/api/v1/features/financials/services/expense.service.js:41-49 | deleting an expense takes its amount out of every window sum that held it |
| ExpenseService.NotFoundAnsweredAs500AsWritten | src/api/v1/features/financials/services/expense.service.js:28-30 | as written, a missing expense is answered with status 500 |
| ExpenseService.NotFoundAnsweredAs404 | src/api/v1/features/financials/services/expense.service.js:28-30 | with the status read where it is attached, a missing expense is answered with 404 |
| InvestmentService.InvestmentRow | src/api/v1/features/financials/services/investment.service.js:4-12 | the stored row carries the org, name, amount and date given, and notes exactly when non-empty notes were given |
| InvestmentService.CreateInvestment | src/api/v1/features/financials/services/investment.service.js:4-12 | the row is appended under a fresh id and nothing else changes |
| InvestmentService.CreatedInvestmentCounts | src/api/v1/features/financials/services/investment.service.js:4-12 | a new investment adds its amount to the total invested up to any later date, and the earliest date is then at most its date |
| InvestmentService.GetInvestments | src/api/v1/features/financials/services/investment.service.js:14-16 | exactly the org's investments, in table order |
| InvestmentService.ListingFollowsWrites | src/api/v1/features/financials/services/investment.service.js:4-16 | a created investment is listed last, and a deleted one is not listed |
| InvestmentService.Patched | src/api/v1/features/financials/services/investment.service.js:25-29 | the supplied fields are replaced and every other field, and the org, are kept |
| InvestmentService.PatchLaws | src/api/v1/features/financials/services/investment.service.js:25-30 | an empty update changes nothing, and the same update twice is the update once |
| InvestmentService.UpdateInvestment | src/api/v1/features/financials/services/investment.service.js:18-31 | a row that is missing or another org's is a 404 error and nothing changes; otherwise only that row is patched and returned |
| InvestmentService.DeleteInvestment | src/api/v1/features/financials/services/investment.service.js:33-41 | a row that is missing or another org's is a 404 error and nothing changes; otherwise that row alone is removed |
| InvestmentService.DeletedInvestmentUncounts | src/api/v1/features/financials/services/investment.service.js:33-41 | deleting an investment takes its amount out of the total invested up to any date on or after its own |
| InvestmentService.NotFoundAnsweredAs500AsWritten | src/api/v1/features/financials/services/investment.service.js:20-22 | as written, a missing investment is answered with status 500 |
| InvestmentService.NotFoundAnsweredAs404 | src/api/v1/features/financials/services/investment.service.js:20-22 | with the status read where it is attached, a missing investment is answered with 404 |
| ErrorHandler.FromError | src/shared/middlewares/errorHandler.js:7 | a plain service error carries its message and no `statusCode`, code or errors |
| ErrorHandler.FromStatusError | src/shared/middlewares/errorHandler.js:7 | the corrected reading: the status the service attaches is the error's `statusCode` |
| ErrorHandler.Classify | src/shared/middlewares/errorHandler.js:7-31 | the foreign-key code gives 400, the unique code 409, whatever the name; failing those, UnauthorizedError gives 401, ValidationError 400, and anything else its own status (500 by default) and message |
| ErrorHandler.Handle | src/shared/middlewares/errorHandler.js:6-42 | the status classified; outside development the message is always the generic one; `errors` is sent exactly when non-empty |
| ErrorHandler.StatusFieldIsIgnored | src/shared/middlewares/errorHandler.js:7 | an error whose status sits in `status` is answered with 500 |
| ErrorHandler.AttachedStatusIsAnswered | src/shared/middlewares/errorHandler.js:7 | read as `statusCode`, an attached status is the status answered, 500 when none |
| ErrorHandler.DatabaseCodesWin | src/shared/middlewares/errorHandler.js:10-31 | the database codes decide the status over the error's name |
| ErrorHandler.NotFound | src/shared/middlewares/errorHandler.js:45-50 | 404 with the route named, and no errors |
| UserModel.ActiveMembership | src/api/v1/features/user/models/user.model.js:164-171 | none iff no plan is active with `now` between its dates; otherwise a plan that is, namely the first |
| UserModel.ActiveTrainingPlans | src/api/v1/features/user/models/user.model.js:174-176 | exactly the plans whose status is "active", no more of them than there are plans |
| UserModel.ActiveTrainingPlansAppend | src/api/v1/features/user/models/user.model.js:174-176 | the filter keeps order: filtering a concatenation concatenates the filtered parts |
| UserModel.ActiveMembershipAppend | src/api/v1/features/user/models/user.model.js:164-171 | adding a plan at the end never displaces the active membership, and becomes it only when there was none and it covers `now` |
| MongoStore.AppendKeepsUnique | src/api/v1/features/user/models/user.model.js:153-161 | a user no stored user clashes with can be added keeping the unique indexes satisfied |
| MongoStore.ReplaceKeepsUnique | src/api/v1/features/user/models/user.model.js:153-161 | a user no other stored user clashes with can replace one keeping the unique indexes satisfied |
| MongoStore.SameKeysNotTaken | src/api/v1/features/user/models/user.model.js:153-161 | a write that keeps the organization, email and Clerk id clashes with no one and keeps the indexes satisfied |
| UserService.FindByClerkIdAndOrg | src/api/v1/features/user/repositories/user.repository.js:32-37 | none iff no user has that Clerk id in that organization; otherwise one that has |
| UserService.GetUserById | src/api/v1/features/user/services/user.service.js:54-62 | the stored user iff the id exists, "User not found" otherwise |
| UserService.GetUserByClerkIdAndOrg | src/api/v1/features/user/services/user.service.js:87-98 | succeeds iff some user has that Clerk id in that organization, and returns such a stored user |
| UserService.UserOf | src/api/v1/features/user/services/user.service.js:33-42 | the document built from the request has its organization, Clerk id and email, and the role given or "member" |
| UserService.NewUser | src/api/v1/features/user/services/user.service.js:15-46 | the organization is required; a given Clerk id must be new in the organization; the role given or "member" must be in the enum; a user that shares the organization and the email, or a present Clerk id, with a stored one is refused with a duplicate key; otherwise a new active user with no plans and the given profile that clashes with no stored user (corrected; see Findings) |
| UserService.NewUserAsWritten | src/api/v1/features/user/services/user.service.js:15-46 | as written, with the Clerk-id index indexing a missing id as null; whatever it accepts the corrected create accepts too |
| UserService.SecondUserWithoutClerkIdAsWritten | src/api/v1/features/user/models/user.model.js:153-158 | as written, a second user without a Clerk id is refused with a duplicate key in an organization that has one, though its email is new; with the index meant to skip missing ids it is created |
| UserService.NoPlansDistinct | src/api/v1/features/user/services/user.service.js:33-45 | a new user's plan ids are trivially distinct |
| UserService.CreateUser | src/api/v1/features/user/services/user.service.js:15-46 | a refused user writes nothing; otherwise it is appended under a fresh id, keeping every stored user valid and no two users clashing on the unique indexes |
| UserService.ApplyPatch | src/api/v1/features/user/services/user.service.js:155 | the update's keys replace the profile fields; the plans, organization and Clerk id are kept; `updatedAt` is stamped |
| UserService.EmailHolder | src/api/v1/features/user/services/user.service.js:146-149 | none iff no user of the organization holds the email; otherwise one that does |
| UserService.EmailCheck | src/api/v1/features/user/services/user.service.js:145-153 | refused, with "Email is already taken", exactly when a new non-empty email is held by another user of the organization |
| UserService.EmailCheckAsWritten | src/api/v1/features/user/services/user.service.js:145-153 | as written, the only refusal is the TypeError of reading `_id` off a transformed document |
| UserService.TakenEmailMisreportedAsWritten | src/api/v1/features/user/services/user.service.js:150-151 | as written, exactly the taken emails are refused, but never with the message that says so |
| UserService.UpdatedUser | src/api/v1/features/user/services/user.service.js:137-156 | unknown user fails; a taken email fails; nothing to update gives null; a merged user that clashes with another on the unique indexes is refused with a duplicate key; otherwise exactly then the patched user, with a role from the enum, and a new email held by no other user of the organization (corrected; see Findings) |
| UserService.UpdateDuplicateOnlyForEmptyEmail | src/api/v1/features/user/services/user.service.js:144-155 | past the email check, an update of a clash-free collection meets the unique index only by writing the empty email the check skips as falsy |
| UserService.UpdateKeepsUserValid | src/api/v1/features/user/services/user.service.js:155 | an update keeps a valid user valid |
| UserService.UpdateUser | src/api/v1/features/user/services/user.service.js:137-156 | the result is `UpdatedUser`, it is written exactly when a user comes back, and every stored user stays valid with no two users clashing (corrected; see Findings) |
| UserService.DeleteUser | src/api/v1/features/user/services/user.service.js:164-173 | unknown user fails and writes nothing; otherwise the user is kept, inactive and stamped |
| UserService.Synced | src/api/v1/features/user/services/user.service.js:195-201 | a sync leaves the Clerk id, organization, role and plans alone |
| UserService.FromClerk | src/api/v1/features/user/services/user.service.js:204-215 | a synced new user has the Clerk id and organization, the role "member", and is valid |
| UserService.SyncUserFromClerk | src/api/v1/features/user/services/user.service.js:182-217 | the organization is required; the user with that Clerk id in it is updated in place, or else a new one appended, unless the write clashes with another user on the unique indexes, when it is refused with a duplicate key and nothing is written; after a write the lookup finds the returned user |
| UserService.SyncClashIsEmail | src/api/v1/features/user/services/user.service.js:182-217 | in a clash-free collection a sync is refused only for its email, held by another user of the organization; the Clerk id it writes is never the clash |
| UserService.FoundAfterReplace | src/api/v1/features/user/services/user.service.js:188-201 | overwriting the found user with a match keeps it the one found |
| UserService.FoundAfterAppend | src/api/v1/features/user/services/user.service.js:188-215 | appending a match where there was none makes it the one found |
| UserService.MembershipEntryOf | src/api/v1/features/user/services/user.service.js:246 | the new embedded plan exists iff plan, name and both dates are given; it gets the generated id, the dates, and the status given or "active" |
| UserService.AddedMembership | src/api/v1/features/user/services/user.service.js:226-251 | unknown user fails; a plan that will be active while one already covers now is refused; otherwise the plan is appended after all the earlier ones (corrected; see Findings) |
| UserService.CoverCountAppend | src/api/v1/features/user/services/user.service.js:235-239 | appending a plan adds one to the count of covering plans iff it covers now |
| UserService.CoverCountZero | src/api/v1/features/user/services/user.service.js:235-239 | no plan covers now exactly when `some` finds none |
| UserService.AddNeverStacksActivePlans | src/api/v1/features/user/services/user.service.js:233-246 | with the guard as intended, adding never leaves two active plans covering `now`; later instants are not guarded |
| UserService.LaterOverlapNotGuarded | src/api/v1/features/user/services/user.service.js:233-246 | the guard, as written and as intended, looks at `now` only: a plan overlapping a booked later plan is added, and both then cover a later instant |
| UserService.StackedPlansAsWritten | src/api/v1/features/user/services/user.service.js:241 | as written, a plan whose status is left to default slips past the guard and gives two covering plans |
| UserService.AddMembershipPlan | src/api/v1/features/user/services/user.service.js:226-251 | the result is `AddedMembership`, written exactly when it succeeds, and every stored user stays valid (corrected; see Findings) |
| UserService.MergeMembership | src/api/v1/features/user/services/user.service.js:277-280 | a merged plan keeps its id |
| UserService.MembershipIndex | src/api/v1/features/user/services/user.service.js:268-274 | none iff no plan has the id; otherwise the position of one that has |
| UserService.UpdatedMembership | src/api/v1/features/user/services/user.service.js:261-285 | unknown user or plan id fails; otherwise only the plan at that position is merged, the number of plans is unchanged, and the rest stay |
| UserService.SameKeyKeepsDistinct | src/api/v1/features/user/services/user.service.js:277-280 | replacing an element by one with the same id keeps the ids distinct |
| UserService.UpdateTouchesOnlyThatPlan | src/api/v1/features/user/services/user.service.js:268-280 | with distinct plan ids, exactly the plan with that id is merged |
| UserService.UpdateMembershipPlan | src/api/v1/features/user/services/user.service.js:261-285 | the result is `UpdatedMembership`, written exactly when it succeeds, and every stored user stays valid |
| UserService.RemovedMembership | src/api/v1/features/user/services/user.service.js:294-312 | unknown user fails; no plan with the id is "Membership plan not found"; otherwise exactly the plans with another id remain |
| UserService.RemoveMembershipPlan | src/api/v1/features/user/services/user.service.js:294-312 | the result is `RemovedMembership`, written exactly when it succeeds, and every stored user stays valid |
| UserService.TrainingEntryOf | src/api/v1/features/user/services/user.service.js:329 | the new embedded training exists iff its name and start date are given; it gets the generated id and the status given or "active" |
| UserService.AddedTraining | src/api/v1/features/user/services/user.service.js:321-334 | unknown user fails; with no overlap check, a schema-valid plan is appended after all the earlier ones |
| UserService.AddedTrainingIsActiveLast | src/api/v1/features/user/models/user.model.js:174-176 | an added active training shows up last among the active trainings |
| UserService.AddTrainingPlan | src/api/v1/features/user/services/user.service.js:321-334 | the result is `AddedTraining`, written exactly when it succeeds, and every stored user stays valid |
| UserService.MergeTraining | src/api/v1/features/user/services/user.service.js:360-363 | a merged training keeps its id |
| UserService.TrainingIndex | src/api/v1/features/user/services/user.service.js:351-357 | none iff no training has the id; otherwise the position of one that has |
| UserService.UpdatedTraining | src/api/v1/features/user/services/user.service.js:344-368 | unknown user or training id fails; otherwise only that position is merged, the count is unchanged, and the rest stay |
| UserService.UpdateTrainingPlan | src/api/v1/features/user/services/user.service.js:344-368 | the result is `UpdatedTraining`, written exactly when it succeeds, and every stored user stays valid |
| UserService.RemovedTraining | src/api/v1/features/user/services/user.service.js:377-395 | unknown user fails; no training with the id is "Training plan not found"; otherwise exactly the trainings with another id remain |
| UserService.RemoveTrainingPlan | src/api/v1/features/user/services/user.service.js:377-395 | the result is `RemovedTraining`, written exactly when it succeeds, and every stored user stays valid |
| UserMembershipService.PaidOr | src/api/v1/features/membership/services/user-membership.service.js:39 | `amount \|\| fallback`: a present non-zero amount, otherwise the fallback |
| UserMembershipService.Saved | src/api/v1/features/membership/models/user-membership.model.js:9-88 | a membership is saved unchanged iff it meets the schema (references, organization, status enum, non-negative amount) and ends after it starts; a schema-valid membership ending no later than it starts is refused with "End date must be after start date" |
| UserMembershipService.Sanitize | src/api/v1/features/membership/services/user-membership.service.js:235-244 | the id is carried, `planPrice` is null, and a falsy amount becomes null while a truthy one is kept |
| UserMembershipService.SanitizeIdempotent | src/api/v1/features/membership/services/user-membership.service.js:235-244 | sanitizing twice is sanitizing once |
| UserMembershipService.GetMembershipById | src/api/v1/features/membership/services/user-membership.service.js:73-81 | the sanitized membership iff the id exists, "Membership not found" otherwise |
| UserMembershipService.Assigned | src/api/v1/features/membership/services/user-membership.service.js:14-46 | a missing plan, then an inactive plan, is refused; otherwise a membership starting at the given date or now, ending the plan's days later, "active", auto-renew defaulting to false, paid the amount or the price; saved iff it meets the schema |
| UserMembershipService.ZeroAmountTakesPlanPrice | src/api/v1/features/membership/services/user-membership.service.js:39 | an amount of 0 is replaced by the plan's price |
| UserMembershipService.AssignMembership | src/api/v1/features/membership/services/user-membership.service.js:14-46 | a refused assignment writes nothing; otherwise the membership is appended and returned sanitized |
| UserMembershipService.Renewed | src/api/v1/features/membership/services/user-membership.service.js:114-134 | the renewal starts at the later of the current end and now, lasts the current plan's days, is "active" for the same user and organization, inherits plan and auto-renew unless given, and is paid the amount or the price |
| UserMembershipService.RenewalSavedIff | src/api/v1/features/membership/services/user-membership.service.js:119-141 | a renewal is saved exactly when the plan has a positive duration and the amount paid is not negative |
| UserMembershipService.WithStatus | src/api/v1/features/membership/repositories/user-membership.repository.js:180-186 | `updateStatus` writes the status and the timestamp and nothing else |
| UserMembershipService.Retired | src/api/v1/features/membership/services/user-membership.service.js:136-139 | only the renewed membership changes, to "expired", and only if it was "active" |
| UserMembershipService.RenewMembership | src/api/v1/features/membership/services/user-membership.service.js:100-143 | an unknown membership or plan writes nothing; otherwise the old one is retired, and the new one appended and returned when it saves, while a failed save leaves the old one retired |
| UserMembershipService.Target | src/api/v1/features/membership/services/user-membership.service.js:161-197 | each action's status is one of the four the schema admits |
| UserMembershipService.Guard | src/api/v1/features/membership/services/user-membership.service.js:157-195 | cancelling is refused iff already cancelled; suspending is always allowed; reactivating is refused iff not suspended |
| UserMembershipService.ChangeStatus | src/api/v1/features/membership/services/user-membership.service.js:150-199 | an unknown membership writes nothing; a refused action writes nothing; otherwise only that membership takes the action's status and is returned sanitized |
| UserMembershipService.SuspendThenReactivate | src/api/v1/features/membership/services/user-membership.service.js:157-198 | a suspended membership can be reactivated; a cancelled one cannot be cancelled again but can be suspended |
| UserMembershipService.InOrg | src/api/v1/features/membership/repositories/user-membership.repository.js:124 | exactly the organization's memberships |
| UserMembershipService.CountStatus | src/api/v1/features/membership/repositories/user-membership.repository.js:128-139 | a status count never exceeds the memberships counted |
| UserMembershipService.PaidCount | src/api/v1/features/membership/repositories/user-membership.repository.js:142 | the memberships with an amount are among those counted |
| UserMembershipService.MembershipStats | src/api/v1/features/membership/services/user-membership.service.js:217-228 | the total, counts and revenue are those of the organization's memberships, and the average is over those with an amount, 0 when none |
| UserMembershipService.Average | src/api/v1/features/membership/repositories/user-membership.repository.js:142 | `$avg`: times the count gives the total; 0 over no amounts |
| UserMembershipService.CountsPartition | src/api/v1/features/membership/repositories/user-membership.repository.js:126-140 | with every status one of the four, the four counts add up to the total |
| UserMembershipService.StatsPartition | src/api/v1/features/membership/services/user-membership.service.js:217-228 | in a valid store every organization's four counts add up to its total |
| UserMembershipService.RevenueNonNegative | src/api/v1/features/membership/models/user-membership.model.js:44-47 | schema-valid amounts make the revenue non-negative |
| UserMembershipService.AppendCounts | src/api/v1/features/membership/repositories/user-membership.repository.js:126-141 | a new membership adds one to its own status count and its amount to the revenue |
| UserMiddlewares.IndexOf | src/api/v1/features/user/user.middlewares.js:34 | the position of the first occurrence of the character, or -1 exactly when it does not occur |
| UserMiddlewares.EmailScanIsEmailShape | src/api/v1/features/user/user.middlewares.js:34 | the email pattern holds exactly when there is a first "@" past the start with no other "@", no white space, and a "." at least two characters after the "@" that is not the last character |
| UserMiddlewares.CreationErrors | src/api/v1/features/user/user.middlewares.js:28-45 | each of the three messages is reported exactly when its field is bad (an email that is given, not blank and not of email shape; a missing or blank first or last name), and no errors exactly when all three fields pass |
| UserMiddlewares.ValidateUserCreation | src/api/v1/features/user/user.middlewares.js:28-55 | the request passes exactly when no error was collected; otherwise it is refused with 400 "Validation failed" and the errors |
| UserMiddlewares.ValidateUserUpdate | src/api/v1/features/user/user.middlewares.js:60-71 | passes exactly when the email is absent, empty or of email shape; otherwise 400 "Invalid email format" |
| UserMiddlewares.BlankEmailOnlyRefusedOnUpdate | src/api/v1/features/user/user.middlewares.js:28-71 | an email of blanks is refused on update but not on creation |
| UserMiddlewares.RequireOrganization | src/api/v1/features/user/user.middlewares.js:11-23 | passes, carrying the organization id, exactly when the auth context has one; otherwise 403 |
| UserMiddlewares.CheckRole | src/api/v1/features/user/user.middlewares.js:77-115 | passes exactly when there is an organization, the user lookup succeeds and the user's role is allowed; no organization is 403, a missing user profile 404, another lookup error is forwarded, a disallowed role 403 "Insufficient permissions" |
| UserMiddlewares.DigitRun | src/api/v1/features/user/user.middlewares.js:136 | the length of the longest prefix of digits of the radix |
| UserMiddlewares.ParseInt | src/api/v1/features/user/user.middlewares.js:136 | `parseInt` yields a number or NaN, never a string |
| UserMiddlewares.CheckOwnershipAsWritten | src/api/v1/features/user/user.middlewares.js:120-149 | no organization is 403 and a failed lookup is forwarded; otherwise admins pass and others pass when their text id strictly equals the parsed number |
| UserMiddlewares.OwnershipAsWrittenAdmitsOnlyAdmins | src/api/v1/features/user/user.middlewares.js:136 | as written, a user passes the ownership gate exactly when they are an admin |
| UserMiddlewares.OwnRequestRefusedAsWritten | src/api/v1/features/user/user.middlewares.js:136-145 | a member asking for their own record by its own id is refused with 403 |
| UserMiddlewares.CheckOwnership | src/api/v1/features/user/user.middlewares.js:120-149 | corrected gate: passes exactly when there is an organization, the lookup succeeds and the user is an admin or the requested id is their own; every refusal is the written one |
| UserMiddlewares.OwnersAdmitted | src/api/v1/features/user/user.middlewares.js:135-145 | every user reaches their own resources, a non-admin reaches nothing else, and on admins the corrected gate agrees with the written one |
| MembershipMiddlewares.PlanDataErrors | src/api/v1/features/membership/membership.middlewares.js:9-23 | each of the three messages is reported exactly when its field is bad (missing or blank name; missing, zero or negative duration; undefined or negative price), in push order, and none exactly when all pass |
| MembershipMiddlewares.ValidatePlanData | src/api/v1/features/membership/membership.middlewares.js:9-34 | passes exactly when no error was collected; otherwise 400 "Validation failed" with the errors |
| MembershipMiddlewares.PlanDataEdges | src/api/v1/features/membership/membership.middlewares.js:17-23 | a free plan and a null price pass, a zero duration is refused, an undefined price is refused |
| MembershipMiddlewares.AssignmentErrors | src/api/v1/features/membership/membership.middlewares.js:39-45 | "Plan ID is required" exactly when the plan id is falsy, and nothing otherwise |
| MembershipMiddlewares.ValidateMembershipAssignment | src/api/v1/features/membership/membership.middlewares.js:39-56 | passes exactly when a plan id is given; otherwise 400 with that error |
| TrainerAssignmentMiddlewares.CreationErrors | src/api/v1/features/trainer-assignment/trainer-assignment.middlewares.js:9-23 | each message is reported exactly when its condition holds (a missing or blank member id; a missing or blank trainer id; the two ids strictly equal), and none exactly when all three checks pass |
| TrainerAssignmentMiddlewares.ValidateAssignmentCreation | src/api/v1/features/trainer-assignment/trainer-assignment.middlewares.js:9-34 | passes exactly when no error was collected; otherwise 400 "Validation failed" with the errors |
| TrainerAssignmentMiddlewares.MissingIdsAreTheSameUser | src/api/v1/features/trainer-assignment/trainer-assignment.middlewares.js:13-23 | an empty body, or one with both ids null, also reports the two ids as the same user; an undefined and a null id are not equal |
| TrainerAssignmentMiddlewares.ValidateAssignmentUpdate | src/api/v1/features/trainer-assignment/trainer-assignment.middlewares.js:39-62 | always answers 400 or passes; passes exactly when a truthy status is one of active, inactive, completed and the end date, when both dates are given and parse, is not before the start |
| TrainerAssignmentMiddlewares.UpdateDateEdges | src/api/v1/features/trainer-assignment/trainer-assignment.middlewares.js:49-59 | a lone date is never compared, equal dates pass, an unparsable date never fails the comparison, and an end before the start is refused |
| TrainerAssignmentService.CheckUser | src/api/v1/features/trainer-assignment/services/trainer-assignment.service.js:16-31 | a user passes exactly when it exists, belongs to the organization, is active and has the role; a missing, foreign or inactive user gets the not-found message, a wrong role the role message |
| TrainerAssignmentService.Eligibility | src/api/v1/features/trainer-assignment/services/trainer-assignment.service.js:16-31 | an assignment is allowed exactly when the member check and the trainer check both pass, and the member's failure is reported first |
| TrainerAssignmentService.Deactivated | src/api/v1/features/trainer-assignment/repositories/trainer-assignment.repository.js:125-136 | the member's active assignments in the organization become "completed" ending now, the others are untouched, and none of the member's is active afterwards |
| TrainerAssignmentService.DeactivatedKeepsOneActive | src/api/v1/features/trainer-assignment/models/trainer-assignment.model.js:50-57 | closing a member's assignments keeps at most one active assignment per member and organization |
| TrainerAssignmentService.NewAssignment | src/api/v1/features/trainer-assignment/services/trainer-assignment.service.js:37-45 | the new assignment links the organization, member and trainer, is "active" unless a status is given, starts now unless a start is given, and has null notes when none are given |
| TrainerAssignmentService.AppendAfterCloseKeepsOneActive | src/api/v1/features/trainer-assignment/services/trainer-assignment.service.js:33-47 | appending a new assignment after closing the member's others keeps at most one active assignment per member |
| TrainerAssignmentService.OnlyNewAssignmentIsActive | src/api/v1/features/trainer-assignment/services/trainer-assignment.service.js:12-47 | after assigning with the default status, the new assignment is the member's only active one in the organization |
| TrainerAssignmentService.AssignTrainer | src/api/v1/features/trainer-assignment/services/trainer-assignment.service.js:14-48 | a failed member or trainer check writes nothing; otherwise the member's assignments are closed, and the new assignment is appended (or refused by the status enum, with the closing kept), keeping the one-active index |
| TrainerAssignmentService.GetMemberActiveTrainer | src/api/v1/features/trainer-assignment/services/trainer-assignment.service.js:53-61 | null exactly when the member has no active assignment in the organization; otherwise one such assignment |
| TrainerAssignmentService.ActiveTrainerUnique | src/api/v1/features/trainer-assignment/models/trainer-assignment.model.js:50-57 | with the index in place, the member's active assignment found is the only one |
| TrainerAssignmentService.GetAllAssignments | src/api/v1/features/trainer-assignment/services/trainer-assignment.service.js:77-91 | exactly the organization's assignments matching every truthy filter; with no filters, all of the organization's |
| TrainerAssignmentService.GetTrainerMembers | src/api/v1/features/trainer-assignment/services/trainer-assignment.service.js:66-72 | exactly the organization's assignments of the trainer with the given status |
| TrainerAssignmentService.TrainerMembersAreFilteredAssignments | src/api/v1/features/trainer-assignment/services/trainer-assignment.service.js:66-91 | for a non-empty status, the trainer listing holds the same assignments as the general listing filtered by that trainer and status |
| TrainerAssignmentService.GetAssignmentById | src/api/v1/features/trainer-assignment/services/trainer-assignment.service.js:96-104 | found exactly when the assignment exists in the organization; otherwise "Assignment not found" |
| TrainerAssignmentService.Write | src/api/v1/features/trainer-assignment/models/trainer-assignment.model.js:26-31 | a write is accepted exactly when its status is in the enum and it does not make a second active assignment for the member |
| TrainerAssignmentService.WriteKeepsOneActive | src/api/v1/features/trainer-assignment/models/trainer-assignment.model.js:50-57 | an accepted overwrite keeps at most one active assignment per member |
| TrainerAssignmentService.StatusUpdated | src/api/v1/features/trainer-assignment/services/trainer-assignment.service.js:109-122 | a missing or foreign assignment is not found; otherwise the new status, the end date only if one is given, and nothing else changed |
| TrainerAssignmentService.UpdateAssignmentStatus | src/api/v1/features/trainer-assignment/services/trainer-assignment.service.js:109-122 | the stored assignment is replaced by the updated one exactly when the update succeeds, keeping the index |
| TrainerAssignmentService.AssignmentUpdated | src/api/v1/features/trainer-assignment/services/trainer-assignment.service.js:127-145 | a missing or foreign assignment is not found, an update with none of the four keys is refused, otherwise exactly the supplied keys are written (a null clearing a date or the notes) |
| TrainerAssignmentService.UpdateAssignment | src/api/v1/features/trainer-assignment/services/trainer-assignment.service.js:127-145 | the stored assignment is replaced by the updated one exactly when the update succeeds, keeping the index |
| TrainerAssignmentService.DeletedAsWritten | src/api/v1/features/trainer-assignment/services/trainer-assignment.service.js:150-158 | as written, the soft delete leaves the assignment as it was apart from its timestamp |
| TrainerAssignmentService.DeletedAssignmentStaysActiveAsWritten | src/api/v1/features/trainer-assignment/services/trainer-assignment.service.js:157 | as written, a deleted active assignment still gives the member an active trainer |
| TrainerAssignmentService.Deleted | src/api/v1/features/trainer-assignment/services/trainer-assignment.service.js:150-158 | corrected: a missing or foreign assignment is not found; otherwise it is marked "inactive" |
| TrainerAssignmentService.DeletedLeavesNoActiveTrainer | src/api/v1/features/trainer-assignment/services/trainer-assignment.service.js:150-158 | once the active assignment is deleted, the member has no active trainer left |
| TrainerAssignmentService.DeleteAssignment | src/api/v1/features/trainer-assignment/services/trainer-assignment.service.js:150-158 | the stored assignment is replaced by the deleted one exactly when the delete succeeds, keeping the index (corrected; see Findings) |
| MembershipPlanService.FindByNameAndOrg | src/api/v1/features/membership/repositories/membership-plan.repository.js:50-59 | no plan exactly when none of the organization's plans, active or not, has that name; otherwise one that has it |
| MembershipPlanService.SanitizePlan | src/api/v1/features/membership/services/membership-plan.service.js:143-155 | the plan comes back with its id, its features defaulting to the empty list and otherwise unchanged |
| MembershipPlanService.SanitizePlanIdempotent | src/api/v1/features/membership/services/membership-plan.service.js:143-155 | sanitizing twice is sanitizing once |
| MembershipPlanService.GetPlanById | src/api/v1/features/membership/services/membership-plan.service.js:43-51 | found exactly when the plan exists, returned sanitized; otherwise "Membership plan not found" |
| MembershipPlanService.NewPlan | src/api/v1/features/membership/services/membership-plan.service.js:13-32 | refused with "A plan with this name already exists" exactly when the organization already has a plan of that name; otherwise the given fields, features defaulting to [] and the plan active unless told otherwise |
| MembershipPlanService.CreatePlan | src/api/v1/features/membership/services/membership-plan.service.js:13-36 | a refused plan writes nothing; otherwise the plan is appended and returned sanitized under its new id, and plan names stay unique |
| MembershipPlanService.ApplyPlanPatch | src/api/v1/features/membership/services/membership-plan.service.js:98-106 | the organization is kept, and the name and active flag are the supplied ones or the old ones |
| MembershipPlanService.UpdatedPlan | src/api/v1/features/membership/services/membership-plan.service.js:79-108 | a missing plan is not found; a truthy new name taken by another plan of the organization is refused; an update with no keys returns null; otherwise exactly the supplied keys are written |
| MembershipPlanService.RenameKeepsNamesUnique | src/api/v1/features/membership/services/membership-plan.service.js:86-96 | an update that goes through leaves no two plans of an organization with the same name |
| MembershipPlanService.CreateKeepsNamesUnique | src/api/v1/features/membership/services/membership-plan.service.js:14-22 | a created plan never shares its name with another plan of the organization |
| MembershipPlanService.UpdatePlan | src/api/v1/features/membership/services/membership-plan.service.js:79-108 | a refused or empty update writes nothing; otherwise the plan is replaced by the updated one and returned sanitized |
| MembershipPlanService.DeactivatePlan | src/api/v1/features/membership/services/membership-plan.service.js:115-127 | a missing plan is not found and nothing is written; otherwise only its active flag is cleared and a success message returned |
| PlanCatalogService.NameQuery | src/api/v1/features/plan/repositories/membership-plan.repository.js:35-37 | the name lookup's query holds exactly the organization and name that are given, an undefined argument dropping out |
| PlanCatalogService.NewFields | src/api/v1/features/plan/models/training-plan.model.js:34-66 | a created document holds every defined key of the data as given, each schema default for a key the data leaves out, and the update time |
| PlanCatalogService.NewFieldsIndex | src/api/v1/features/plan/models/membership-plan.model.js:67 | a created document has the data's own entry in the unique (organization, name) index |
| PlanCatalogService.NameCheckKeepsIndex | src/api/v1/features/plan/services/membership-plan.service.js:14-25 | when both organization and name are given, a plan that passes the name check breaks no entry of the unique index |
| PlanCatalogService.AppendKeepsUnique | src/api/v1/features/plan/models/training-plan.model.js:93 | appending a document with no clashing entry keeps the index unique |
| PlanCatalogService.ReplaceKeepsUnique | src/api/v1/features/plan/models/training-plan.model.js:93 | replacing a document by one with no clashing entry keeps the index unique |
| PlanCatalogService.CreatePlan | src/api/v1/features/plan/services/membership-plan.service.js:14-26 | a name found in the organization is refused with "Membership plan with this name already exists" ("Training plan with this name already exists" in the training catalog) and nothing is written; otherwise the plan is stored unless the unique index refuses it, and the result is what a get by the new id finds |
| PlanCatalogService.GetPlanById | src/api/v1/features/plan/services/membership-plan.service.js:55-63 | found exactly when a document has the id; otherwise "Membership plan not found" ("Training plan not found" in the training catalog) |
| PlanCatalogService.UpdatePlan | src/api/v1/features/plan/services/membership-plan.service.js:72-80 | an unknown plan is refused and nothing is written; empty data returns null and writes nothing; otherwise the data is merged in as given, with no name check, unless the unique index refuses it; the training catalog behaves the same |
| PlanCatalogService.DeactivateNeverClashes | src/api/v1/features/plan/services/membership-plan.service.js:88-96 | clearing the active flag touches neither index key, so it never clashes |
| PlanCatalogService.DeactivatePlan | src/api/v1/features/plan/services/membership-plan.service.js:88-96 | an unknown plan is refused; otherwise the plan is kept with its active flag false, nothing else changed, and returned as a get now finds it; the training catalog behaves the same |
| PlanCatalogService.GetActivePlans | src/api/v1/features/plan/services/training-plan.service.js:34-39 | one listed plan per selected document |
| PlanCatalogService.ActivePlansAreTheActiveOnes | src/api/v1/features/plan/services/training-plan.service.js:34-39 | a plan is listed exactly when it is active in the organization, and in the category when a truthy one is given; the listing is the transformed documents the repository's active-plans or category query selects |
| PlanTypeService.FindByNameAndOrg | src/api/v1/features/plan/repositories/plan-type.repository.js:45-50 | no plan type exactly when no live plan type of the organization has the name; otherwise one that has it (corrected; see Findings) |
| PlanTypeService.NewPlanType | src/api/v1/features/plan/services/plan-type.service.js:12-34 | a missing organization is refused first; then a name already used in the organization is refused; otherwise the row has the given organization and name, a null description unless a truthy one is given, the default category, and is active unless told otherwise (corrected; see Findings) |
| PlanTypeService.CreatedIsFoundByName | src/api/v1/features/plan/services/plan-type.service.js:17-33 | a created plan type is the one the name lookup then finds, and names stay unique in the organization |
| PlanTypeService.CreatePlanType | src/api/v1/features/plan/services/plan-type.service.js:12-34 | a refused plan type writes nothing; otherwise the row is appended under the next id, keeping names unique (corrected; see Findings) |
| PlanTypeService.NewPlanTypeAsWritten | src/api/v1/features/plan/services/plan-type.service.js:12-34 | as written, past the organization check the name lookup fails on the missing `findOne`, so nothing is created and a taken name is never reported as taken |
| PlanTypeService.KindOf | src/api/v1/features/plan/services/plan-type.service.js:85-88 | a category is accepted exactly when it is "membership" or "training" |
| PlanTypeService.Patched | src/api/v1/features/plan/services/plan-type.service.js:78-91 | only the supplied keys change: the name and active flag if given, the description set or cleared, the category if given; the organization never changes |
| PlanTypeService.UpdatedPlanType | src/api/v1/features/plan/services/plan-type.service.js:62-94 | an unknown plan type is not found; a truthy new name held by another plan type of the organization is refused; then a category other than the two is refused; otherwise an empty update returns null and a non-empty one returns the patched plan type (corrected; see Findings) |
| PlanTypeService.UpdateKeepsNamesUnique | src/api/v1/features/plan/services/plan-type.service.js:65-76 | an update that goes through keeps names unique in the organization |
| PlanTypeService.UpdatePlanType | src/api/v1/features/plan/services/plan-type.service.js:62-94 | the stored plan type is replaced by the updated one exactly when the update returns one; otherwise nothing is written (corrected; see Findings) |
| PlanTypeService.DeletePlanType | src/api/v1/features/plan/services/plan-type.service.js:96-100 | an unknown plan type is not found and nothing is written; otherwise its row is removed for good (the repository hard-deletes, it does not deactivate) and nothing else changes (corrected; see Findings) |
| PlanTypeService.DeactivatePlanType | src/api/v1/features/plan/services/plan-type.service.js:102-105 | an unknown plan type is not found; otherwise only its active flag is cleared and the row returned (corrected; see Findings) |
| PlanTypeService.DeactivateIsAnUpdate | src/api/v1/features/plan/services/plan-type.service.js:102-105 | deactivating is the update that only sets the active flag to false, so it keeps names unique |
| PlanVariantService.VariantsOf | src/api/v1/features/plan/repositories/plan-variant.repository.js:9-24 | exactly the live variants of the plan type, and only the active ones unless inactive ones are asked for, each listed once (corrected; see Findings) |
| PlanVariantService.GetVariantsByPlanType | src/api/v1/features/plan/services/plan-variant.service.js:49-53 | "Plan type not found" exactly when the plan type does not exist; otherwise the variants the repository selects (corrected; see Findings) |
| PlanVariantService.ActiveListingIsPartOfFull | src/api/v1/features/plan/repositories/plan-variant.repository.js:14-16 | every variant of the default listing is also in the listing that includes inactive ones |
| PlanVariantService.NewVariant | src/api/v1/features/plan/services/plan-variant.service.js:21-36 | a missing plan type id is refused first, then an unknown plan type; otherwise the row carries the given plan type, duration, label and price, and is active unless told otherwise (corrected; see Findings) |
| PlanVariantService.CreateVariant | src/api/v1/features/plan/services/plan-variant.service.js:21-36 | a refused variant writes nothing; otherwise the row is appended under the next id (corrected; see Findings) |
| PlanVariantService.NewVariantAsWritten | src/api/v1/features/plan/services/plan-variant.service.js:13-36 | as written, past the id check the plan type load fails on the missing `findById`, whether the plan type exists or not |
| PlanVariantService.CreatedVariantIsListed | src/api/v1/features/plan/services/plan-variant.service.js:21-53 | a created variant is listed last under its plan type when the listing selects it, and no listing changes otherwise |
| PlanVariantService.Patched | src/api/v1/features/plan/services/plan-variant.service.js:58-62 | only the supplied keys change (the label can be cleared with null), and the plan type never changes |
| PlanVariantService.UpdatedVariant | src/api/v1/features/plan/services/plan-variant.service.js:55-65 | "Plan variant not found" exactly when the variant does not exist; otherwise null for an empty update and the patched variant for a non-empty one (corrected; see Findings) |
| PlanVariantService.UpdateVariant | src/api/v1/features/plan/services/plan-variant.service.js:55-65 | the stored variant is replaced by the updated one exactly when the update returns one; otherwise nothing is written (corrected; see Findings) |
| PlanVariantService.SamePlanTypeKeepsFullListing | src/api/v1/features/plan/repositories/plan-variant.repository.js:9-24 | replacing a variant by one of the same plan type leaves the full listing of every plan type as it was |
| PlanVariantService.UpdateKeepsFullListing | src/api/v1/features/plan/services/plan-variant.service.js:55-65 | an update never moves a variant into or out of any plan type's full listing |
| PlanVariantService.DeleteVariant | src/api/v1/features/plan/services/plan-variant.service.js:67-71 | an unknown variant is not found and nothing is written; otherwise its row is removed for good (corrected; see Findings) |
| PlanVariantService.DeletedVariantIsUnlisted | src/api/v1/features/plan/repositories/plan-variant.repository.js:47-50 | a deleted variant is gone from every listing, and no other variant is |
| PlanVariantService.DeactivateVariant | src/api/v1/features/plan/services/plan-variant.service.js:73-76 | an unknown variant is not found; otherwise only its active flag is cleared and the row returned (corrected; see Findings) |
| PlanVariantService.DeactivatedVariantIsHidden | src/api/v1/features/plan/services/plan-variant.service.js:73-76 | a deactivated variant leaves the default listing of its plan type and stays in the full one |
| MemberService.GetMemberById | src/api/v1/features/member/services/member.service.js:5-11 | found exactly when the member exists; otherwise "Member not found" (corrected; see Findings) |
| MemberService.FindByClerkIdAndOrg | src/api/v1/features/member/repositories/member.repository.js:13-18 | no member exactly when no member of the organization is linked to the Clerk user; otherwise one that is (corrected; see Findings) |
| MemberService.NewOrganization | src/api/v1/features/member/services/member.service.js:23-29 | an organization record is named by its slug when one is given, otherwise "Organization " and its id, and keeps the owner given |
| MemberService.EnsuredOrgs | src/api/v1/features/member/services/member.service.js:18-30 | an unknown organization gets its record and every existing organization is left as it was |
| MemberService.NewMember | src/api/v1/features/member/services/member.service.js:13-59 | a missing organization is refused; a Clerk user already a member of the organization is refused, but only when one is given; otherwise the row takes the given fields with their defaults (phone "", gender "Not specified", dates now, notes null, active) (corrected; see Findings) |
| MemberService.CreateKeepsClerkLinksUnique | src/api/v1/features/member/services/member.service.js:32-40 | a created member keeps every Clerk user a member of an organization at most once, and is the member the duplicate check then finds |
| MemberService.CreateMember | src/api/v1/features/member/services/member.service.js:13-59 | a missing organization writes nothing; otherwise the organization record is ensured first, even when the member is then refused, and an accepted member is appended under the next id (corrected; see Findings) |
| MemberService.CreateMemberAsWritten | src/api/v1/features/member/services/member.service.js:13-59 | as written: a missing organization writes nothing; otherwise the organization record is ensured, and then the duplicate lookup (with a Clerk user) or the create fails on the delegate, so no member is ever stored |
| MemberService.Written | src/api/v1/features/member/services/member.service.js:97-111 | an undefined key keeps the current value, a null one clears it, a given one is written |
| MemberService.Patched | src/api/v1/features/member/services/member.service.js:97-111 | only the supplied keys change; the organization and the Clerk link never do |
| MemberService.UpdatedMember | src/api/v1/features/member/services/member.service.js:84-114 | an unknown member is not found; a truthy new email held by another member of the organization is refused; otherwise null for an empty update and the patched member for a non-empty one (corrected; see Findings) |
| MemberService.NewEmailIsFree | src/api/v1/features/member/services/member.service.js:87-95 | after an update that changes the email to a non-empty one, no other member of the organization holds it |
| MemberService.UpdateKeepsClerkLinksUnique | src/api/v1/features/member/services/member.service.js:84-114 | an update never touches the Clerk links, so they stay unique |
| MemberService.UpdateMember | src/api/v1/features/member/services/member.service.js:84-114 | the stored member is replaced by the updated one exactly when the update returns one; otherwise nothing is written (corrected; see Findings) |
| MemberService.DeleteMember | src/api/v1/features/member/services/member.service.js:116-120 | an unknown member is not found and nothing is written; otherwise the member stays with its active flag cleared (corrected; see Findings) |
| TrainerService.GetTrainerById | src/api/v1/features/trainer/services/trainer.service.js:30-32 | found exactly when the trainer exists; otherwise "Trainer not found" (corrected; see Findings) |
| TrainerService.TrimIdempotent | src/api/v1/features/trainer/services/trainer.service.js:22 | trimming an already trimmed name changes nothing |
| TrainerService.AppendKeepsTrimmed | src/api/v1/features/trainer/services/trainer.service.js:20-23 | adding a trainer with a trimmed name keeps every stored name trimmed |
| TrainerService.ReplaceKeepsTrimmed | src/api/v1/features/trainer/services/trainer.service.js:38 | replacing a trainer by one with a trimmed name keeps every stored name trimmed |
| TrainerService.NewTrainer | src/api/v1/features/trainer/services/trainer.service.js:12-24 | a missing organization is refused first, then a missing or blank name; otherwise an active trainer of the organization whose name is the given one trimmed, non-empty |
| TrainerService.CreateTrainer | src/api/v1/features/trainer/services/trainer.service.js:12-24 | a refused trainer writes nothing; otherwise the trainer is appended under the next id, and stored names stay trimmed (corrected; see Findings) |
| TrainerService.NewTrainerAsWritten | src/api/v1/features/trainer/services/trainer.service.js:12-24 | as written, no trainer is created: the checks refuse as in `NewTrainer`, and a trainer they pass is refused by the delegate's argument validation |
| TrainerService.UpdatedTrainer | src/api/v1/features/trainer/services/trainer.service.js:34-43 | an unknown trainer is not found; otherwise a given name is stored trimmed (a blank one is not refused), a given active flag is written, and the organization is kept (corrected; see Findings) |
| TrainerService.EmptyUpdateChangesNothing | src/api/v1/features/trainer/services/trainer.service.js:37-42 | an update with no keys returns the trainer as it was (corrected; see Findings) |
| TrainerService.UpdateTrainer | src/api/v1/features/trainer/services/trainer.service.js:34-43 | the trainer is replaced by the updated one, which is what is read back; an unknown trainer writes nothing; stored names stay trimmed (corrected; see Findings) |
| TrainerService.DeactivateTrainer | src/api/v1/features/trainer/services/trainer.service.js:45-49 | an unknown trainer is not found; otherwise only its active flag is cleared and the trainer read back is returned (corrected; see Findings) |
| TrainerService.ActiveClients | src/api/v1/features/trainer/repositories/trainer.repository.js:25-51 | exactly the trainer's trainings whose status is active, each listed once (corrected; see Findings) |
| TrainerService.GetTrainerWithActiveClients | src/api/v1/features/trainer/services/trainer.service.js:51-57 | an unknown trainer is not found; otherwise the trainer with exactly its active trainings (corrected; see Findings) |
| TrainerService.EndedTrainingLeavesClients | src/api/v1/features/trainer/repositories/trainer.repository.js:28-29 | a training that stops being active leaves its trainer's clients, and no other training does |

## Left out

- Controllers, routes, configuration, authentication (Clerk webhooks and sessions) and database connection code are not part of this model. The model starts at the service function, with the request already parsed.
- I/O and time: every `new Date()` is a `now` parameter; time zones, daylight saving and the local-time behaviour of `setHours`/`setDate` are not modelled (a day is 86 400 000 ms, and months are computed by calendar arithmetic with no time zone).
- Floating point: money is an integer, `parseFloat`/`Number` of request text is not modelled, and the two-decimal rounding of the ROI percentage and of averages is left out.
- Concurrency: `Promise.all` and Prisma `$transaction` blocks are taken as one atomic step; races between requests are not modelled.
- Schema-level behaviour of Mongoose and Prisma is not modelled beyond what the services rely on: setters, the lower-casing and trimming of user emails, `required`/`min`/`enum` validators in the plan catalogs on create and on update (the generic update passes `runValidators: true`), foreign-key cascades, and the stripping of `undefined` keys from queries other than the plan catalogs' name query (`PlanCatalogService.NameQuery`). The Prisma schema file is not part of this model, so the default plan-type category is a parameter of `PlanTypeService.CreatePlanType`.
- Request bodies carry typed values: a number sent as text, an array sent as an object and other JavaScript coercions are not modelled.
- `populate`/`include` joins: results carry ids instead of the joined documents.
- Sort orders other than the dues report's: listings are returned in id order, where the source sorts by first name (dues report ties), by `updatedAt` (inactive candidates), by `orderBy`/`-createdAt` (generic repository), by date descending (expenses, investments), by `durationDays` ascending (variants), by `endDate` ascending (trainings) or by `-assignedAt` (trainer assignments). Membership of each listing is stated exactly.
- Ids are positions, so the falsy id `0` of the source's `planId || current` idiom is not modelled.
- ReportsService.TakeActivitySnapshot: takes the counts it reads through `getMemberCounts` as inputs and performs the `upsertDailySnapshot` write as intended. Neither method, nor the `getActivityTrend` the service also calls, is defined in the reports repository, so as written these calls raise "is not a function"; `getActivityTrend` is not modelled.
- Read-only queries with no rule of their own are not modelled: `getAll` and `rawQuery` of the generic repository; `getUserByClerkId`, `getAllUsers`, `getUsersByRole`; `getUserMemberships`, `getUserActiveMembership`, `getOrganizationMemberships`, `getExpiringSoon`; `getTrainersByOrg`, `getAllMembers`, `searchMembers`, `getMemberStats`; `getPlanTypeById`, `getAllPlanTypes`, `getActivePlanTypes`; `getVariantById`; `getAllPlans`, `getPlanStats` and `getActivePlans` of the membership-plan services.
- UserService.SyncUserFromClerk: updates the user that was found; the source passes the `_id` of the transformed document, which it does not have (the same slip as the email finding below), and that failure is not modelled separately.
- UserMembershipService.Sanitize: a missing membership, for which the source returns `null`, is not modelled; every caller in the model passes a stored membership.
- TrainerService.UpdatedTrainer: a `null` name, on which the source's `trim` throws a TypeError, is not modelled.
- ErrorHandler.Handle: the development-mode `stack` field of the body is not modelled, and `errors` is taken as a list of messages (a Mongoose `ValidationError` carries an object there, whose `length` is undefined).
- CrudRepository.FindWithPagination: requires a non-zero limit, because a limit of 0 gives an `Infinity` or `NaN` page count in the source. The routes never pass 0: the controllers turn a missing or zero limit into 10.
- ReportsRepository.FindInactiveCandidates: requires a non-zero limit, for the same reason; the rows a negative `take` reads from the end are taken in id order, not by `updatedAt`.
- ReportsService.GetInactiveCandidates: requires a non-zero limit, for the same reason (reports.controller.js turns 0 into 10).
- ReportsRepository.GetMembersWithDues: requires a non-zero limit, for the same reason (reports.controller.js turns 0 into 10).
- PlanCatalogService.GetActivePlans: its own `ensures` states only the count; which plans are listed is stated by `PlanCatalogService.ActivePlansAreTheActiveOnes`.
- SubscriptionService.UpdateBypassesGuard: as written the inherited update fails on the missing `findByIdAndUpdate` before any status is written (`SubscriptionService.UpdateAsWritten`).
- SubscriptionService.Update: gives the inherited update its intended Prisma meaning; as written only an update with nothing copied succeeds (`SubscriptionService.UpdateAsWritten`).
- SubscriptionService.Transition: gives the inherited load and update their intended Prisma meaning; as written no transition succeeds (`SubscriptionService.TransitionAsWritten`).
- SubscriptionService.FreezeThenUnfreeze: holds of the corrected transitions; as written neither step succeeds.
- PaymentService.Record: gives the inherited create its intended Prisma meaning; as written the create is refused (`PaymentService.RecordAsWritten`).
- PaymentService.GetPayment: gives the inherited `get` its intended Prisma meaning; as written it raises on the missing `findById`.
- PaymentService.UpdateStatus: gives the inherited load and update their intended Prisma meaning; as written they raise on the missing `findById`.
- PaymentService.StatusChangeCanOverpay: is about the corrected status update; as written no status change is written.
- PlanTypeService.FindByNameAndOrg: gives the inherited `findOne` its intended Prisma meaning; as written it raises.
- PlanTypeService.NewPlanType: gives the name lookup its intended Prisma meaning; as written it raises (`PlanTypeService.NewPlanTypeAsWritten`).
- PlanTypeService.CreatePlanType: gives the inherited lookup and create their intended Prisma meaning; as written nothing is created (`PlanTypeService.NewPlanTypeAsWritten`).
- PlanTypeService.UpdatedPlanType: gives the inherited load, lookup and update their intended Prisma meaning; as written they raise.
- PlanTypeService.UpdatePlanType: as for `PlanTypeService.UpdatedPlanType`: as written no update is written.
- PlanTypeService.DeletePlanType: gives the inherited load and hard delete their intended Prisma meaning; as written they raise on the missing `findById`.
- PlanTypeService.DeactivatePlanType: gives the inherited load and update their intended Prisma meaning; as written they raise.
- PlanVariantService.VariantsOf: gives the inherited `find` its intended Prisma meaning; as written it raises.
- PlanVariantService.GetVariantsByPlanType: as for `PlanVariantService.VariantsOf`.
- PlanVariantService.NewVariant: gives the plan type load its intended Prisma meaning; as written it raises (`PlanVariantService.NewVariantAsWritten`).
- PlanVariantService.CreateVariant: as for `PlanVariantService.NewVariant`: as written nothing is created.
- PlanVariantService.UpdatedVariant: gives the inherited load and update their intended Prisma meaning; as written they raise.
- PlanVariantService.UpdateVariant: as for `PlanVariantService.UpdatedVariant`.
- PlanVariantService.DeleteVariant: gives the inherited load and hard delete their intended Prisma meaning; as written they raise.
- PlanVariantService.DeactivateVariant: gives the inherited load and update their intended Prisma meaning; as written they raise.
- MemberService.GetMemberById: gives the inherited `get` its intended Prisma meaning; as written it raises on the missing `findById`.
- MemberService.FindByClerkIdAndOrg: gives the inherited `findOne` its intended Prisma meaning; as written it raises.
- MemberService.NewMember: gives the duplicate lookup and create their intended Prisma meaning; as written no member is stored (`MemberService.CreateMemberAsWritten`).
- MemberService.CreateMember: as for `MemberService.NewMember` (`MemberService.CreateMemberAsWritten`).
- MemberService.UpdatedMember: gives the inherited load and update their intended Prisma meaning; as written they raise.
- MemberService.UpdateMember: as for `MemberService.UpdatedMember`.
- MemberService.DeleteMember: gives the inherited load and soft delete their intended Prisma meaning; as written they raise.
- TrainerService.GetTrainerById: gives the inherited `get` its intended Prisma meaning; as written it raises on the missing `findById`.
- TrainerService.CreateTrainer: gives the inherited create its intended Prisma meaning; as written the create is refused (`TrainerService.NewTrainerAsWritten`).
- TrainerService.EmptyUpdateChangesNothing: is about the corrected update; as written the trainer load raises before the update is reached.
- TrainerService.UpdatedTrainer: gives the inherited load and update their intended Prisma meaning; as written they raise.
- TrainerService.UpdateTrainer: as for `TrainerService.UpdatedTrainer`.
- TrainerService.DeactivateTrainer: gives the inherited load and update their intended Prisma meaning; as written they raise.
- TrainerService.ActiveClients: gives the trainer load its intended Prisma meaning; as written it raises.
- TrainerService.GetTrainerWithActiveClients: as for `TrainerService.ActiveClients`.
- Calendar.NumberOf: reads blank text and runs of decimal digits only; a sign, a fraction, an exponent, a `0x`/`0o`/`0b` prefix or `Infinity`, which `Number` also accepts, are taken as NaN.
- Calendar.FullYear: the Date constructor's range limit (an invalid date beyond 8.64e15 ms) is not modelled.
- Analytics.MonthTextSelectsMonth: holds for years from 100; a printed period of a year 0 to 99 selects the month of the 1900s instead (`Analytics.TwoDigitYearText`).
- ExpenseService.MonthListFilter: holds for years from 100; years 0 to 99 are read as 1900 to 1999 by `ExpenseService.ListFilter`.
- ExpenseService.ListStopsAtLastDay: holds for years from 100, as `ExpenseService.MonthListFilter`.
- Analytics.DefaultPeriodRoundTrip: holds for clock years from 0; a negative clock year is not covered.
- Analytics.GetTrends: takes each trend month's own year, without the two-digit reading of the Date constructor; this differs from the source whenever a trend month falls in a year 0 to 99 (a clock in January of year 100 with two months reaches December of year 99, which the source covers as December 1999).
- PlanCatalogService.UpdatePlan: the schema validators that `runValidators: true` applies to an update (a required name, non-negative price and duration, the status enum) are not modelled; an update the schema would refuse is written.
- UserService.SyncUserFromClerk: no longer promises success for an organization: a write that clashes with another user on the unique email index is refused with a duplicate key (`UserService.SyncClashIsEmail`).

## Findings

| source | as written | input that shows it | evidently intended | confidence | as-written member | corrected member |
|---|---|---|---|---|---|---|
| src/shared/repositories/crud.repository.js:48-325 | the relational repositories hand a Prisma model delegate (`super(prisma.member)` and the like at line 6 of each) to the Mongoose base repository, whose `findById`, `findByIdAndUpdate`, `find`, `findOne`, `countDocuments` are not functions of a delegate and whose `create(data)` is refused | `createMember` for a known organization with no Clerk id: the create is refused | the Prisma query behind each inherited call (`findUnique`, `update`, `findMany`, `findFirst`, `count`, `create({ data })`) | not executed | PrismaDelegate.Inherited, PrismaDelegate.ReadsAndRowWritesAreNotFunctions, MemberService.CreateMemberAsWritten, TrainerService.NewTrainerAsWritten, PlanTypeService.NewPlanTypeAsWritten, PlanVariantService.NewVariantAsWritten, PaymentService.RecordAsWritten, SubscriptionService.UpdateAsWritten, SubscriptionService.TransitionAsWritten | MemberService.CreateMember, TrainerService.CreateTrainer, PlanTypeService.CreatePlanType, PlanVariantService.CreateVariant, PaymentService.Record, SubscriptionService.Update, SubscriptionService.Transition |
| src/api/v1/features/user/models/user.model.js:153-158 | the compound unique index on Clerk id and organization is sparse, but a compound sparse index still indexes a document that has the organization, so every user without a Clerk id holds the key (null, organization) | a second user without a Clerk id in an organization that already has one, with a new email | users without a Clerk id do not clash with each other | not executed | UserService.NewUserAsWritten, UserService.SecondUserWithoutClerkIdAsWritten | UserService.NewUser, MongoStore.AppendKeepsUnique |
| src/api/v1/features/financials/services/analytics.service.js:21-30 | a bare year `YYYY`, documented as a full-year summary, is split on `-`; the missing month gives `NaN` and an invalid date | `month = "2024"` | the window from 1 January to 31 December of that year | not executed | Analytics.SummaryWindowAsWritten, Analytics.FullYearRejectedAsWritten | Analytics.SummaryWindow, Analytics.FullYearWindow |
| src/api/v1/features/user/user.middlewares.js:136 | the text id of the caller is compared with `===` to `parseInt` of the requested id, which is never equal, so only admins pass | a member with id `65f0a1b2c3d4e5f6a7b8c9d0` requesting that same id is refused with 403 | owners and admins pass | not executed | UserMiddlewares.CheckOwnershipAsWritten, UserMiddlewares.OwnershipAsWrittenAdmitsOnlyAdmins, UserMiddlewares.OwnRequestRefusedAsWritten | UserMiddlewares.CheckOwnership, UserMiddlewares.OwnersAdmitted |
| src/api/v1/features/user/services/user.service.js:241 | the "already has an active plan" guard applies only when the new plan's status is literally `active`; an omitted status defaults to `active` in the schema and stacks a second active plan | a user with a current plan covering `now`, adding a plan with no status through the service; the route never omits the status, since user.controller.js:272 fills in `'active'` when the body has no status | no two active plans cover `now` | not executed | UserService.StackedPlansAsWritten | UserService.AddedMembership, UserService.AddNeverStacksActivePlans |
| src/api/v1/features/user/services/user.service.js:150 | the email clash check reads `_id` of a transformed document, which has only `id`, and throws a TypeError instead of "Email is already taken" | updating a user's email to one another user holds | refuse with "Email is already taken" | not executed | UserService.EmailCheckAsWritten, UserService.TakenEmailMisreportedAsWritten | UserService.EmailCheck |
| src/api/v1/features/trainer-assignment/services/trainer-assignment.service.js:157 | delete goes through the generic soft delete, which sets `isActive`, a path the assignment schema does not have; the assignment stays active | deleting an active assignment, then asking for the member's active trainer | the assignment is marked inactive | not executed | TrainerAssignmentService.DeletedAsWritten, TrainerAssignmentService.DeletedAssignmentStaysActiveAsWritten | TrainerAssignmentService.Deleted, TrainerAssignmentService.DeletedLeavesNoActiveTrainer |
| src/api/v1/features/financials/services/expense.service.js:28-30 | "not found" errors carry `status = 404`, but the error handler reads only `statusCode`, so the answer is 500 (the same in investment.service.js:20-22 and 36-38) | `updateExpense` with an unknown id | answer 404 "Expense not found" | not executed | ExpenseService.NotFoundAnsweredAs500AsWritten, InvestmentService.NotFoundAnsweredAs500AsWritten, ErrorHandler.StatusFieldIsIgnored | ExpenseService.NotFoundAnsweredAs404, InvestmentService.NotFoundAnsweredAs404, ErrorHandler.FromStatusError, ErrorHandler.AttachedStatusIsAnswered |
