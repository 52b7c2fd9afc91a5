# CentraX route handlers in Dafny

This project models the request handlers of the CentraX educational
back end (a FastAPI/SQLAlchemy service). It covers five route files:

- timetable slots;
- notifications;
- teacher-to-batch allotment;
- content and comments;
- batches.

Each handler looks up rows, checks the caller's role or ownership, checks
existence and uniqueness, and then inserts, overwrites or deletes rows or
returns a filtered, ordered selection.

## How the model is built

- The database is one object, `Store.Db`. It holds one `seq` of keyed rows
  (`Table.Row`) per table, in scan order, and one counter, `nextId`, from
  which every insert takes its primary key. `Db.Valid()` says that every
  table has unique keys, all below `nextId`. Every handler keeps it.
- Handlers that write are methods. Each `modifies` exactly the table fields
  it touches. Each returns a `Common.Result`: the row(s), or the HTTP error
  raised (`NotFound` 404, `Forbidden` 403, `BadRequest` 400). Their `ensures`
  state:
  - the order in which the checks fail;
  - the exact condition for success;
  - that a failure changes nothing;
  - the new table, through `Table.Remove`, `Table.Replace` or an append.
- Read-only handlers are functions. Their contracts state the result:
  - which rows are in it, with multiplicity;
  - the order it is in;
  - its length, where there is a limit.
- SQL building blocks live in their own modules:
  - `.filter(...).first()` is `Table.First` / `Table.Lookup`;
  - `.filter(...)` is `Table.Filter`;
  - `order_by` is `Order.SortBy`, an insertion sort proved sorted and a
    permutation;
  - a `LIMIT` after an `ORDER BY` is `Order.SortedLimit`;
  - text order is `Order.StrLe`;
  - `payload.dict(exclude_none=True)` followed by the `setattr` loop is
    `Patch.SetEach`.
- The caller is `Common.Caller(id, role, isAdmin)`. The route files use three
  different notions of "admin", and the model keeps them apart:
  - `Auth.AdminByRole`: the role alone (allotment, timetable, and
    `_is_admin` of content);
  - `Auth.AdminByFlagOrRole`: the flag or the role (notification, batch);
  - `Auth.AdminByFlag`: the `is_admin` flag alone (the checks inside
    content's handlers).
- Python truthiness is explicit. `Common.IdGiven` is false for `None` and
  `0`. `Common.TextGiven` is false for `None` and `""`. `Common.FlagGiven`
  is false for `None` and `False`. A test written `is not None` in the
  source uses `.Some?` instead.
- Three details of the content guards, as the code has them:
  - Batch-scoped content is not opened to its uploader as such
    (app/routes/content.py:85-90). `Contents.UploaderNotExempt` shows this.
  - In those guards "admin" means the `is_admin` flag only.
    `Contents.RoleAdminWithoutFlagRefused` shows this.
  - The enrollment test compares an enrollment's `student_id` with the
    caller's *user* id (app/routes/content.py:18-21), and the model does the
    same.

## Model

| member | source | states |
|---|---|---|
| Common.OrElse | app/routes/notification.py:52 | `channel or "in-app"`: a given non-empty channel is kept, an absent or empty one becomes the fallback |
| Common.Override | app/routes/timetable.py:90-92 | one field of a partial update: a given value overwrites, an absent one keeps the current value |
| Auth.AdminByFlagOrRole | app/routes/notification.py:15-16 | admin exactly when the `is_admin` flag is set or the role is "admin" |
| Auth.AdminNotionsDiffer | app/routes/allotment.py:12-13 | an "admin"-role caller without the flag passes the role test but fails the flag test; a flagged caller with another role passes the flag test but fails the role test |
| Auth.AdminByRole | app/routes/allotment.py:12-13 | `_is_admin` of allotment.py, timetable.py:14 and content.py:28-29: admin exactly when the role is "admin" |
| Auth.AdminByFlag | app/routes/content.py:89 | the guard `getattr(current_user, "is_admin", False)` (also content.py:114 and 135): admin exactly when the flag is set |
| Auth.AdminTestsIndependent | app/routes/content.py:28-29 | the role-only admin test ignores the `is_admin` flag, and the flag test of content.py:89 ignores the role |
| Auth.IsTeacher | app/routes/notification.py:23-24 | teacher exactly when the role is "teacher"; a teacher is never an admin by role |
| Auth.IsCoordinator | app/routes/notification.py:19-20 | coordinator exactly when the role is "coordinator"; a coordinator is neither a teacher nor an admin by role |
| Table.FirstIndex | app/routes/batch.py:66 | `.first()`: the index of the first match in scan order, with no match before it |
| Table.First | app/routes/allotment.py:33-36 | `.first()` is absent exactly when no row matches; otherwise it is the first matching row |
| Table.Lookup | app/routes/batch.py:66 | lookup by primary key is present exactly when some row has that key; on unique keys it is that row |
| Table.Filter | app/routes/notification.py:71-74 | a query filter keeps exactly the rows that pass the condition, and is no longer than the table |
| Table.FilterCount | app/routes/content.py:102 | a filtered query keeps each passing row as often as it occurs and drops every other row |
| Table.FilterConcat | app/routes/content.py:102 | filtering two parts is filtering each and joining the results |
| Table.FilterKeepsAll | app/routes/content.py:102 | a filter every row passes keeps the table as it is |
| Table.ConsWellKeyed | app/routes/batch.py:109-110 | a row with a fresh key in front of a well-keyed table keeps keys unique and below the counter |
| Table.FilterWellKeyed | app/routes/batch.py:109-110 | any filter of a well-keyed table is well keyed |
| Table.Remove | app/routes/batch.py:109-110 | `db.delete(obj)`: the rows left are exactly those with another key, and none has the deleted key |
| Table.RemoveAt | app/routes/batch.py:109-110 | when only position k has the key, deleting by key cuts out exactly position k |
| Table.RemoveExactlyOne | app/routes/timetable.py:108-109 | on a well-keyed table a delete removes exactly the one matching row and keeps the others in order; an absent key changes nothing |
| Table.Replace | app/routes/notification.py:124-126 | assigning to a fetched row and committing: same length and keys, the row with the key carries the new value, every other row is unchanged |
| Table.ReplaceReadBack | app/routes/batch.py:88-92 | after an in-place update the key reads back the new value, every other key reads as before, and keys stay unique |
| Table.ReplaceSame | app/routes/notification.py:124-126 | writing back the value a row already holds leaves the table equal to the old one |
| Table.InsertReadBack | app/routes/content.py:60-62 | after an insert with the next key, that key reads back the new row, other keys read as before, and keys stay unique |
| Order.ConsSorted | app/routes/timetable.py:56 | a head that sorts before every element of a sorted tail gives a sorted sequence |
| Order.InsertBy | app/routes/timetable.py:56 | inserting into a sorted sequence keeps it sorted and adds exactly that element |
| Order.SortBy | app/routes/timetable.py:56 | `order_by`: the result is sorted by the key and is a permutation of the input |
| Order.SortedFrontFirst | app/routes/notification.py:105 | the first n rows of a sorted result are ordered before every row after them |
| Order.SortedLimit | app/routes/notification.py:105 | `order_by(...).limit(n)`: the kept rows are a sub-multiset of the query's rows, stay sorted, and every row left out sorts after every kept row |
| Order.StrLeTotal | app/routes/timetable.py:56 | text order compares any two strings |
| Order.StrLeTransitive | app/routes/timetable.py:56 | text order is transitive |
| Order.StrLeAntisymmetric | app/routes/timetable.py:56 | two strings each ordered before the other are equal |
| Patch.SetAllConcat | app/routes/batch.py:88-89 | applying the assignments of a + c is applying a, then c |
| Patch.SetAllSnoc | app/routes/batch.py:88-89 | one more optional field after a sequence of assignments: nothing when it is absent, one `setattr` when it is given |
| Patch.SetAllFive | app/routes/timetable.py:90-92 | the loop over the given fields among five optional ones is one optional `setattr` per field, in declaration order |
| Patch.SetAllSix | app/routes/batch.py:86-89 | the loop over the given fields among six optional ones is one optional `setattr` per field, in declaration order |
| Patch.SetEach | app/routes/batch.py:88-89 | the `setattr` loop over the given fields yields the row after all assignments in order |
| Allotment.ExistingAllotment | app/routes/allotment.py:33-36 | the duplicate query finds a row exactly when the (batch, teacher) pair is already allotted, and it is a row of that pair |
| Allotment.FreshPairKeepsPairsUnique | app/routes/allotment.py:38-46 | appending a pair that is not yet allotted keeps pairs unique and makes the pair allotted |
| Allotment.AllotTeacherToBatch | app/routes/allotment.py:22-49 | Forbidden unless role "admin", then NotFound for the batch, then for the teacher, then 400 for an existing pair; success exactly otherwise; failure changes nothing; success appends exactly one row with the pair; pair uniqueness is preserved |
| Allotment.AllotTwice | app/routes/allotment.py:33-49 | when a first allotment succeeds, repeating the same call is refused with 400 and the table holds only the first new row |
| Timetable.ConflictingSlot | app/routes/timetable.py:27-33 | the conflict query finds a slot exactly when the class already has a slot with that day and start time; teacher, subject and end time play no part |
| Timetable.FreeClassTimeKeepsUnique | app/routes/timetable.py:27-45 | inserting a slot whose class time is free keeps (class, day, start) unique |
| Timetable.MayEditSlot | app/routes/timetable.py:86-87 | on unique teacher keys: allowed exactly for role "admin" or the user linked to the slot's teacher row |
| Timetable.GivenSlotFieldsMerge | app/routes/timetable.py:90-92 | the `setattr` loop over the non-None payload fields gives `MergeSlot`: given fields overwrite, others stay |
| Timetable.MergeSlot | app/routes/timetable.py:90-92 | the slot a partial update leaves: each given field takes the payload's value, each absent field keeps the old one, and the teacher is kept |
| Timetable.MergeSlotLaws | app/routes/timetable.py:90-92 | an empty update changes nothing, applying an update twice is applying it once, and the teacher never changes |
| Timetable.UpdateMayDoubleBookClass | app/routes/timetable.py:82-96 | `update_slot` does not re-run the conflict check: moving a slot onto a taken start time breaks (class, day, start) uniqueness |
| Timetable.SlotBefore | app/routes/timetable.py:56 | `order_by(day, start_time)`: a slot on an earlier day comes first; on the same day the earlier start time comes first |
| Timetable.SlotOrderIsTotal | app/routes/timetable.py:56 | ordering by (day, start_time) is a total preorder |
| Timetable.SlotBeforeTransitive | app/routes/timetable.py:56 | ordering by (day, start_time) is transitive |
| Timetable.TeacherSlots | app/routes/timetable.py:54-56 | exactly the teacher's slots (on the day, when a day is given), each as often as in the table, sorted by (day, start) |
| Timetable.ClassSlots | app/routes/timetable.py:68-70 | exactly the class's slots (on the day, when a day is given), each as often as in the table, sorted by (day, start) |
| Timetable.GetMySlots | app/routes/timetable.py:50-57 | 404 exactly when no teacher row belongs to the caller; otherwise the first such teacher's slots, sorted |
| Timetable.GetClassSlots | app/routes/timetable.py:61-71 | 404 exactly when the caller has no student row; 400 exactly when that student's class id is falsy; otherwise that class's slots, sorted; never 403 |
| Timetable.CreateSlot | app/routes/timetable.py:19-46 | NotFound for the teacher, then the class, then the subject; 400 on a class-time conflict; success exactly otherwise; failure changes nothing; success appends one row with the path's teacher and the payload's fields; class-time uniqueness is preserved |
| Timetable.UpdateSlot | app/routes/timetable.py:82-96 | NotFound, then Forbidden unless admin by role or the slot's teacher; success overwrites exactly that slot with the merge, and every other key reads as before |
| Timetable.DeleteSlot | app/routes/timetable.py:100-110 | NotFound, then Forbidden by the same rule; success removes exactly that slot and keeps the others in order |
| Notifications.MaySend | app/routes/notification.py:34-35 | sending is allowed exactly to an admin (flag or role), a coordinator or a teacher; a caller without the flag and with any other role is refused |
| Notifications.CoordinatorBlocked | app/routes/notification.py:67-69 | the batch rule blocks only a coordinator without the admin flag, and only when the batch has a coordinator who is someone else; such a caller is always blocked |
| Notifications.OnlyCoordinatorsBlocked | app/routes/notification.py:67-69 | teachers, admins and batches without a coordinator are never blocked by the coordinator rule |
| Notifications.Notice | app/routes/notification.py:48-55 | a new notification goes to the given recipient, is unread, carries the payload's title and message and the "in-app" channel unless one is given, and is stamped `now` |
| Notifications.ActiveEnrollments | app/routes/notification.py:71-74 | exactly the active enrollment rows of the batch, each as often as in the table |
| Notifications.FanOut | app/routes/notification.py:79-89 | one notification per enrollment row, in order, for that row's student, with consecutive fresh keys; length equals the number of rows |
| Notifications.FanOutWellKeyed | app/routes/notification.py:79-91 | appending the fan-out to a well-keyed table keeps keys unique and below the advanced counter |
| Notifications.BuildFanOut | app/routes/notification.py:79-89 | the loop that builds `created_notifications` produces exactly the fan-out |
| Notifications.SendToRecipient | app/routes/notification.py:42-60 | NotFound for a missing user; otherwise exactly one notification, appended and returned as a one-element list |
| Notifications.SendToBatch | app/routes/notification.py:62-95 | NotFound for a missing batch, then Forbidden for a blocked coordinator; otherwise the fan-out over the batch's active enrollments, added all together; an empty result exactly when there are no active enrollments, and then nothing is added |
| Notifications.SendNotification | app/routes/notification.py:28-95 | Forbidden unless admin, coordinator or teacher; 400 when both targets are falsy; a given recipient wins over the batch; each path's outcome as above; a failure or an empty result changes nothing |
| Notifications.NewestFirstIsTotal | app/routes/notification.py:105 | `created_at desc` is a total preorder |
| Notifications.ListMyNotifications | app/routes/notification.py:99-107 | only the caller's notifications, each at most as often as in the table (a sub-multiset of them), newest first; exactly min(limit, count) of them; none left out is newer than one listed |
| Notifications.MarkNotificationRead | app/routes/notification.py:111-128 | NotFound, then Forbidden unless admin (flag or role) or recipient; success sets only that row's read flag; marking a read notification again leaves the table unchanged |
| Notifications.DeleteNotification | app/routes/notification.py:132-147 | Forbidden for a non-admin even when the id is missing, then NotFound; success removes exactly that notification |
| Contents.UserIsEnrolled | app/routes/content.py:14-23 | true when there is no batch; otherwise true exactly when an active enrollment links the user id to the batch |
| Contents.MayAccess | app/routes/content.py:85-90 | an authenticated caller may see content exactly when it has no batch, or the caller is enrolled in its batch, or has the `is_admin` flag |
| Contents.UploaderNotExempt | app/routes/content.py:85-90 | the uploader of batch-scoped content who is neither enrolled nor flagged admin is refused |
| Contents.ContentAndCommentOrdersAreTotal | app/routes/content.py:74 | `created_at desc` on contents and `created_at asc` on comments are total preorders |
| Contents.ListContents | app/routes/content.py:67-75 | exactly the rows of the given batch (when one is given) that are public (when `only_public` is truthy), each once per occurrence, newest first |
| Contents.ListComments | app/routes/content.py:96-103 | NotFound exactly for missing content; otherwise exactly its public comments, oldest first |
| Contents.AddedCommentListing | app/routes/content.py:102-122 | a comment added to existing content is listed exactly when it is public |
| Contents.GetContent | app/routes/content.py:79-92 | NotFound exactly for a missing row; batch-scoped content needs a caller (403 without one) who passes `MayAccess`; success returns the row with that id |
| Contents.RoleAdminWithoutFlagRefused | app/routes/content.py:89 | a caller with role "admin" and no `is_admin` flag, not enrolled, is refused batch-scoped content |
| Contents.UploadContent | app/routes/content.py:33-64 | Forbidden unless teacher or admin by role, then NotFound for a given but missing batch; success appends one row uploaded by the caller, with description "" and type "video" unless given |
| Contents.CreateComment | app/routes/content.py:107-125 | NotFound, then Forbidden unless `MayAccess`; success appends one comment on that content by the caller |
| Contents.DeleteComment | app/routes/content.py:129-140 | NotFound, then Forbidden unless the `is_admin` flag or the author; success removes exactly that comment |
| Batches.MergeBatch | app/routes/batch.py:86-89 | the batch a partial update leaves: each given field takes the payload's value, each absent field keeps the old one |
| Batches.MergeBatchLaws | app/routes/batch.py:15-21 | an empty update changes nothing; applying an update twice is applying it once; a given field is set; no field that holds a value can be cleared |
| Batches.GivenBatchFieldsMerge | app/routes/batch.py:86-89 | the `setattr` loop over the non-None payload fields gives `MergeBatch` |
| Batches.ListBatches | app/routes/batch.py:60-61 | every row, in table order |
| Batches.GetBatch | app/routes/batch.py:65-69 | NotFound exactly for an unknown id; otherwise the row with that id |
| Batches.GetBatchAfterWrites | app/routes/batch.py:52-110 | after a create the new key reads the new row; after an update the key reads the merged row; after a delete the key is gone and every other key reads as before |
| Batches.CreateBatch | app/routes/batch.py:41-56 | fails exactly for a non-admin (flag or role), with Forbidden and no change; success appends one row holding the payload |
| Batches.UpdateBatch | app/routes/batch.py:73-93 | NotFound before Forbidden; success overwrites exactly that batch with the merge, and every other key reads as before |
| Batches.DeleteBatch | app/routes/batch.py:97-111 | NotFound before Forbidden; success removes exactly that batch and keeps the others in order |

## Left out

- `get_slot` (app/routes/timetable.py:74-78) is a plain fetch-by-key with
  404. It has the same shape as `Batches.GetBatch` and is not modelled
  separately.
- The unused `_is_teacher` of app/routes/timetable.py:15 has no counterpart.
- app/main.py (application wiring, table creation, Firebase start-up) is not
  part of this model.
- Session mechanics (`add`, `commit`, `refresh`) are not modelled. Each
  handler's write happens at once. The fan-out commit of `send_notification`
  is all or nothing.
- Authentication (`get_current_user`) and pydantic validation and
  serialization are not modelled. The caller is given as a `Caller` record.
  It is optional only in `get_content`, the one handler that tests it for
  `None`.
- Clocks: `datetime.utcnow()` and the database's `created_at` are one
  integer `now` per request. `send_notification` reads the clock once per
  row, so rows of one fan-out may differ slightly in time; the model gives
  them all the same `now`.
- Column defaults the handlers do not set (`is_public` of contents and
  comments) are a parameter, `publicDefault`. Defaults for a batch's
  unspecified columns are represented by `None`.
- `ContentTypeEnum(content_type)`: the enumeration is not part of this
  model. The content type is kept as an opaque string, and the error an
  invalid value raises is not modelled.
- The `SlotCreate`, `SlotUpdate`, `BatchTeacherCreate`, `CommentCreate`,
  `NotificationCreate` and `Batch` schemas are not part of this model. Their
  fields are taken from the attributes the handlers read. `SlotUpdate` is
  taken to hold the five `SlotCreate` fields, all optional. `BatchCreate` is
  taken to hold the six `BatchUpdate` fields.
- Dates are opaque integers.
- The database's text collation is not modelled. The model compares the day
  and times of a slot as text in code-point order (`Order.StrLe`).
- Notifications.ListMyNotifications: `limit` is a natural number. What a negative
  `LIMIT` does depends on the database engine.
- Rows with equal sort keys come out in a fixed, stable order here. The
  database leaves that order unspecified, so the contracts say nothing about
  it.
- All tables draw keys from one shared counter. The source has one
  auto-increment sequence per table. Only key uniqueness within a table is
  relied on.
- Deleting a batch does not touch slots, enrollments, allotments or content
  that refer to it. The model does the same; any cascade in the database
  schema is not part of this model.
- Check-then-insert races between concurrent requests (allotment, slot
  conflict) are concurrency and are not modelled.
- Every handler except `get_content` takes a `Caller`, so a missing caller
  is not modelled there. In the source, `getattr` on a missing caller yields
  `""` for the role and `False` for the flag, so every role and admin test is
  false. `allot_teacher_to_batch`, `send_notification`,
  `delete_notification`, `upload_content` and `create_batch` then answer
  403. `update_batch` and `delete_batch` answer 403 after their 404.
  `get_my_slots`, `get_class_slots`, `list_my_notifications`,
  `mark_notification_read`, `create_comment` and `delete_comment` fail at
  `current_user.id` instead.
- `update_slot` and `delete_slot` answer 403 to a non-admin when the slot's
  teacher row is missing (app/routes/timetable.py:87, 105). With a `Caller`
  this path is modelled by `Timetable.MayEditSlot`.
