# Course and assignment manager: a verified model

This project models, in Dafny, the logic of a course and assignment manager that has two halves.

**The backend.** A FastAPI service over SQLAlchemy:
- the five mapped tables and their constraints;
- the course and assignment data-access functions;
- the request and response schemas with their validators and derived fields;
- the `/courses`, `/assignments` and `/auth` endpoints with their status codes;
- the resolution of a bearer token to a stored user.

**The frontend.** A React application:
- the assignment service's status, colour and query-string helpers;
- the date arithmetic, display and sort helpers;
- the state of the course-management and assignment-list hooks, the assignment page and the creation dialog;
- the header and sidebar navigation;
- the two Tailwind-to-MUI converters.

## How the model is laid out

**The store.**
- It is a class `Models.Db` holding one map per table, keyed by primary key, and one auto-increment counter per table.
- Its `Valid()` invariant collects the constraints the mapping declares: the unique e-mail and the NOT NULL foreign keys.
- Methods that write to it state the whole new store. They also state that no other table changed.
- A failed request leaves the store unchanged. That is what the session's rollback achieves.

**Instants.**
- Backend instants are integers in microseconds; frontend instants are integers in milliseconds.
- `now` and the hour of the day are always parameters.

**Frontend state.** A frontend hook or page is a class whose fields are its `useState` variables.
- Each handler is a method.
- Its `ensures` ties the new `State()` to a pure step function of the old state and of the answers of the requests it awaits.
- Those answers are parameters of type `Outcome`.
- The lemmas about the step functions state what the handlers promise.

**Loops that are proved against a specification function.**
- Query-parameter building.
- The `sx` spreads.
- `convertTailwindToSx`.
- The status-message pushes.
- The CRUD `setattr` loops.

**`CrossLayer`.** This module puts the two halves side by side. It feeds items served by the backend to the frontend's status helpers, and dialog forms to the backend's validator.

## Code and design

Where the written design and the code disagree, the model follows the code.

**Nothing is scoped by owner.**
- The routers never consult the authenticated user: `get_current_user_id` in `backend/routers/assignments.py` is unused.
- Courses are listed with no owner, so every course is listed.
- A new course is created with owner `None`. That violates the NOT NULL owner column, so `POST /courses/` always answers 400 and never stores a course.
- Statistics, the upcoming and overdue listings and the filtered listing cover every assignment of every owner.

**Two due-soon windows.**
- The backend counts an assignment as due soon up to 7 days ahead, inclusive.
- The frontend's `getDueDateStatus` says due soon for a day count of at most 3. For an item the backend serves, that means less than 4 days ahead.
- `CrossLayer.FrontStatusOfServedItem` and `CrossLayer.DueSoonWindowsDiffer` state the relation and the gap.

**An overdue item's caption.**
- The backend sends `days_until_due` as `null` once an assignment is overdue.
- `formatTimeRemaining` only tests for `undefined`, and `Math.abs(null)` is 0.
- So every overdue item the backend serves is captioned "0 days overdue": `CrossLayer.ServedCaption`.

**A due date equal to now.**
- The creation dialog refuses it.
- The backend schema accepts it, because it only refuses an earlier instant.
- See `CrossLayer.DueNowDiffers` and `CrossLayer.DialogStricterThanBackend`.

**Header and sidebar disagree under `/courses`.** On those paths the header highlights the dashboard entry while the sidebar highlights the courses entry (`Sidebar.HeaderAgreesWithSidebar`).

## Model

| member | source | states |
|---|---|---|
| Models.UniqueEmailsReplace | backend/database/models.py:11 | replacing a user by one with the same e-mail keeps the unique e-mail constraint |
| Models.UniqueEmailsAdd | backend/database/models.py:11 | adding a user whose e-mail no other user has keeps the unique e-mail constraint |
| Models.RowsMembership | backend/database/models.py:10 | a table read in primary-key order lists exactly the stored rows with keys below the id counter |
| Models.RowsValues | backend/database/models.py:10 | with every key below the counter, the rows listed are exactly the table's values |
| Models.RowsCount | backend/database/models.py:10 | over a table whose keys hold distinct rows, the primary-key read lists each row below the counter exactly once |
| Models.RowsOnce | backend/database/models.py:10 | with every key below the counter, the read lists each stored row exactly once and nothing else |
| Models.Db.constructor | backend/database/models.py:7-81 | an empty database satisfies the store invariant (ids are keys below their counters, unique e-mails, foreign keys resolve) |
| Models.Db.DeleteCourses | backend/database/models.py:38 | deleting courses removes exactly them and, by the delete-orphan cascade, their assignments and those assignments' drafts and feedback; users and counters are unchanged; the invariant is kept |
| Models.Db.DeleteAssignments | backend/database/models.py:54 | deleting assignments removes exactly them, their drafts and those drafts' feedback; users, courses and counters are unchanged; the invariant is kept |
| Models.Db.DeleteUser | backend/database/models.py:23 | deleting a user removes exactly that user, the courses it owns, their assignments, those assignments' drafts and those drafts' feedback; counters are unchanged; the invariant is kept |
| Due.BucketOf | backend/routers/assignments.py:43-52 | a due instant is overdue iff before now, due soon iff within [now, now+7 days], upcoming iff after now+7 days |
| Due.BucketsPartition | backend/routers/assignments.py:46-52 | exactly one of overdue, due soon and upcoming holds for every due instant |
| Due.FloorDays | backend/schemas/assignment.py:71-72 | `timedelta.days` is the floor of the delta in whole days |
| Due.FloorDaysNegative | backend/schemas/assignment.py:71-72 | the whole-day count is negative exactly when the delta is |
| AssignmentSchemas.ToUtc | backend/schemas/assignment.py:16-18 | a naive date-time is read as UTC; an aware one is shifted by its offset |
| AssignmentSchemas.ValidateDueDate | backend/schemas/assignment.py:12-21 | a due date is accepted iff its UTC instant is not before now, with the create validator's 422 message otherwise |
| AssignmentSchemas.DueNowAccepted | backend/schemas/assignment.py:19 | a due date equal to now passes (the comparison is strict) |
| AssignmentSchemas.ParseAssignmentCreate | backend/schemas/assignment.py:5-24 | a create body is accepted iff title has 1..200 characters, description at most 2000, prompt at least 1, course_id > 0 and the due date passes; a missing description defaults to ""; failures are 422 |
| AssignmentSchemas.ValidateDuePatch | backend/schemas/assignment.py:32-42 | the update validator checks only a present due date; absent and null pass through unchanged |
| AssignmentSchemas.ParseAssignmentUpdate | backend/schemas/assignment.py:26-42 | an update body is accepted iff every present field meets its bound; the patch keeps exactly which fields were sent |
| AssignmentSchemas.AbsentDueNeverChecked | backend/schemas/assignment.py:34 | an update without a due date is accepted or refused independently of the clock |
| AssignmentSchemas.DaysUntilDue | backend/schemas/assignment.py:70-72 | `days_until_due` is None iff the assignment is overdue, otherwise the whole days until the due instant |
| AssignmentSchemas.ResponseOf | backend/schemas/assignment.py:44-72 | serialising succeeds iff title and description are not NULL (500 otherwise); is_overdue iff due before now; days_until_due None iff overdue |
| AssignmentSchemas.ListResponseOf | backend/schemas/assignment.py:74-96 | the list model fails only on a NULL title; the derived fields are as in the full model |
| AssignmentSchemas.ResponsesAgree | backend/schemas/assignment.py:62-96 | both response models derive is_overdue and days_until_due identically |
| AssignmentSchemas.ListResponses | backend/schemas/assignment.py:74-96 | a response list succeeds iff every row has a title |
| CourseSchemas.ParseCourseCreate | backend/schemas/course.py:5-11 | a create body is accepted iff name has 1..200 characters, term 1..50 and description at most 1000; a missing description defaults to ""; an explicit null is kept; failures are 422 |
| CourseSchemas.ParseCourseUpdate | backend/schemas/course.py:13-16 | an update body is accepted iff every present value meets the create bound; absent and null fields always pass; the patch is kept as sent |
| CourseSchemas.UpdateBoundsMatchCreate | backend/schemas/course.py:6-16 | a complete update is accepted exactly when the same values form an acceptable create body |
| CourseSchemas.CourseResponseOf | backend/schemas/course.py:18-28 | serialising a course succeeds iff name, term and description are not NULL (500 otherwise) and copies id, name, term, description and the time stamps |
| CourseSchemas.ResponseHidesOwner | backend/schemas/course.py:18-24 | the response has no owner field: changing the owner leaves it unchanged |
| CourseCrud.GetCoursesSpec | backend/crud/course.py:8-14 | the listing holds each stored course of the owner (every stored course for a falsy owner id) exactly once and nothing else, newest first |
| CourseCrud.GetCourseByIdSpec | backend/crud/course.py:16-18 | the lookup is the stored course with that id, or None |
| CourseCrud.CreateCourse | backend/crud/course.py:20-35 | a course is inserted under the next id iff its owner is a stored user; otherwise 400 "Failed to create course" and nothing changes; a missing or empty description is stored as "" |
| CourseCrud.ApplyPatch | backend/crud/course.py:44-46 | applying the dumped patch changes exactly the sent fields, to the value sent (null included) |
| CourseCrud.ApplyUpdate | backend/crud/course.py:45-46 | the setattr loop yields the row the dumped items describe and never changes id or owner |
| CourseCrud.UpdateCourse | backend/crud/course.py:37-53 | None iff the id is unknown, and then nothing changes; otherwise the stored row becomes the patched one, stamped; every other table is unchanged |
| Models.Db.PutCourse | backend/crud/course.py:29-49 | storing a course whose owner is a stored user, under its own id or the next one, keeps the store valid, advances the course counter only for a new course and changes no other table or counter |
| CourseCrud.DeleteCourse | backend/crud/course.py:55-67 | False for an unknown id; otherwise the course and its assignments go (cascade) and the result is True, or 400 when the commit fails with nothing removed |
| CoursesRouter.CourseResponses | backend/routers/courses.py:21-28 | a response list succeeds iff every row serialises, and keeps the row count |
| CoursesRouter.ListCoursesSpec | backend/routers/courses.py:21-34 | every stored course is listed whoever asks (owner None), newest first |
| CoursesRouter.CreateNewCourse | backend/routers/courses.py:36-53 | an invalid body gives 422; a valid one is passed with owner None, so the NOT NULL owner fails and the answer is 400; the store is unchanged either way |
| CoursesRouter.GetCourseSpec | backend/routers/courses.py:55-73 | an unknown id gives 404 "Course not found"; a stored course is serialised |
| CoursesRouter.UpdateExistingCourse | backend/routers/courses.py:75-95 | 422 for an invalid body, 404 for an unknown id, otherwise the patched course |
| CoursesRouter.DeleteExistingCourse | backend/routers/courses.py:97-117 | 404 for an unknown id, 400 when the commit fails, otherwise exactly that course and its assignments are removed |
| AssignmentCrud.StatusFilterBuckets | backend/crud/assignment.py:125-135 | the filters for "overdue", "due_soon" and "upcoming" select exactly the assignments of that due bucket; any other status string selects no filter |
| AssignmentCrud.RowsAreAssignments | backend/crud/assignment.py:11 | an unordered query reads each stored assignment exactly once and nothing else |
| AssignmentCrud.SelectSpec | backend/crud/assignment.py:11 | a filtered and ordered query returns each stored assignment that passes exactly once and nothing else, sorted by the ORDER BY |
| AssignmentCrud.GetAssignmentsByCourseSpec | backend/crud/assignment.py:9-11 | each of the course's assignments exactly once and nothing else, earliest due first |
| AssignmentCrud.GetAssignmentByIdSpec | backend/crud/assignment.py:13-15 | the lookup is the stored assignment with that id, or None |
| AssignmentCrud.GetAssignmentsByUserSpec | backend/crud/assignment.py:84-88 | each assignment of the courses the user owns exactly once and nothing else, earliest due first |
| AssignmentCrud.UpcomingCandidatesSpec | backend/crud/assignment.py:94-101 | before the limit, each stored assignment due after now within the scope (the user's courses, else the course, else all) exactly once and nothing else, earliest due first |
| AssignmentCrud.GetUpcomingAssignmentsSpec | backend/crud/assignment.py:90-102 | every returned assignment is due after now and in scope (owner first, else course); earliest due first; every omitted match is due no earlier than any returned one; a negative limit omits nothing |
| AssignmentCrud.GetUpcomingAssignmentsPrefix | backend/crud/assignment.py:90-102 | `.limit(limit)` returns the first min(limit, #candidates) candidates (all of them for a negative limit), so no assignment twice |
| AssignmentCrud.UpcomingUserPrecedence | backend/crud/assignment.py:96-100 | with a truthy user id the course id is ignored |
| AssignmentCrud.GetOverdueAssignmentsSpec | backend/crud/assignment.py:104-116 | each in-scope assignment due before now exactly once and nothing else, latest due first |
| AssignmentCrud.GetAssignmentsWithStatusSpec | backend/crud/assignment.py:118-137 | exactly the user's assignments in the bucket a recognised status names (all of them for any other status), each at most once, earliest due first |
| AssignmentCrud.CountsPartitionTotal | backend/crud/assignment.py:139-161 | the overdue, due-soon and upcoming counts of a user add up to the total |
| AssignmentCrud.CreateAssignment | backend/crud/assignment.py:17-44 | the assignment is inserted under the next id iff its course exists; otherwise 404 "Course not found" and nothing changes; a missing or empty description is stored as "" |
| AssignmentCrud.ApplyPatch | backend/crud/assignment.py:53-55 | the setattr loop over the dumped patch changes exactly the sent fields, to the value sent (null included) |
| AssignmentCrud.ApplyUpdate | backend/crud/assignment.py:54-55 | the setattr loop computes the fold of the dumped items over the loaded object |
| AssignmentCrud.UpdateAssignment | backend/crud/assignment.py:46-65 | None iff the id is unknown; a sent null prompt or due date violates NOT NULL and gives 400 with nothing written; otherwise the patched, stamped row replaces the stored one and nothing else changes |
| Models.Db.PutAssignment | backend/crud/assignment.py:35-58 | storing an assignment whose course is stored, under its own id or the next one, keeps the store valid, advances the assignment counter only for a new row and changes no other table or counter |
| AssignmentCrud.UpdateChangesOnlySentFields | backend/crud/assignment.py:53-58 | an update keeps id, course, creation time and every unsent field, sets every sent one, and an empty patch changes nothing |
| AssignmentCrud.DeleteAssignment | backend/crud/assignment.py:67-82 | False for an unknown id, 400 when the commit fails, otherwise True with the assignment, its drafts and their feedback removed |
| AssignmentsRouter.GroupsShape | backend/routers/assignments.py:55-58 | the `by_course` groups come one per course, in course-id order, each with at least one assignment and a stored course |
| AssignmentsRouter.GroupsMembership | backend/routers/assignments.py:55-58 | a group is formed exactly for each course with at least one assignment, carrying that course's name and its assignment count |
| AssignmentsRouter.GroupsSum | backend/routers/assignments.py:55-65 | when every assignment's course is stored, the group counts add up to the number of assignments |
| AssignmentsRouter.GroupsSumStep | backend/routers/assignments.py:55-65 | adding the group of course n-1 adds exactly the assignments of that course to the total, so the sum over courses below n stays equal to the count of assignments below n |
| AssignmentsRouter.StatsPartition | backend/routers/assignments.py:43-64 | overdue, due-soon and upcoming counts add up to the total, and a due date at either end of the seven-day window counts as due soon |
| AssignmentsRouter.StatsByCourse | backend/routers/assignments.py:55-65 | `by_course` has one entry per course with assignments, with its name and count, and the counts add up to the total |
| AssignmentsRouter.UnscopedListings | backend/routers/assignments.py:75-101 | the upcoming and overdue endpoints consider every stored assignment, whoever owns it |
| AssignmentsRouter.ValidateListQuery | backend/routers/assignments.py:110-111 | the query is accepted iff limit <= 100 and offset >= 0; otherwise 422 |
| AssignmentsRouter.OrderLeTotal | backend/routers/assignments.py:144-156 | every ORDER BY the endpoint can issue (due date, title with NULL first, creation time; ascending or descending) is a total preorder |
| AssignmentsRouter.ListFilteredMember | backend/routers/assignments.py:119-142 | a row survives the filters exactly when it joins a stored course and passes each filter the query supplies: the truthy course id, the truthy title search and the recognised truthy status |
| AssignmentsRouter.SelectedMember | backend/routers/assignments.py:119-142 | in a valid store an assignment survives the join and the filters exactly when it is stored and passes the course, search and status selection |
| AssignmentsRouter.StatusSelected | backend/routers/assignments.py:128-142 | the status stage keeps an assignment exactly when it lies in the overdue, due-soon or upcoming bucket the status names; an absent, empty or unknown status keeps every assignment |
| AssignmentsRouter.ListSortedSpec | backend/routers/assignments.py:119-156 | the sorted rows hold each stored assignment with a stored course that passes the course, title-search and status filters exactly once and nothing else, in the requested order |
| AssignmentsRouter.ListFilteredOnce | backend/routers/assignments.py:119-142 | the join and the filters never repeat a row, so each stored assignment passes at most once |
| AssignmentsRouter.ListAllAssignmentsRefused | backend/routers/assignments.py:110-111 | a limit above 100 or a negative offset is refused with 422 |
| AssignmentsRouter.ListAllAssignmentsSpec | backend/routers/assignments.py:103-162 | otherwise the response is the page at offset/limit of the sorted selection: every row selected, at most `limit` rows, in the requested order |
| AssignmentsRouter.ListFallbacks | backend/routers/assignments.py:129-156 | an unrecognised status filters like no status, an unrecognised column sorts by due date, any order but "desc" sorts ascending |
| AssignmentsRouter.UnknownCourseListsNothing | backend/routers/assignments.py:171-178 | the per-course listing of an unknown course is an empty list, not 404 |
| AssignmentsRouter.GetAssignmentSpec | backend/routers/assignments.py:207-225 | an unknown id gives 404 "Assignment not found"; a stored one is serialised |
| AssignmentsRouter.CreateNewAssignment | backend/routers/assignments.py:188-204 | 422 iff the body fails validation; 201 iff it passes and the course exists, with the new id, title and due date and not overdue; 404 otherwise with nothing written |
| AssignmentsRouter.UpdateExistingAssignment | backend/routers/assignments.py:227-251 | 422 iff the body fails validation, 404 for an unknown id, 400 for a null prompt or due date, otherwise the stored row is replaced and serialised |
| AssignmentsRouter.DeleteExistingAssignment | backend/routers/assignments.py:253-273 | 404 for an unknown id, 400 when the commit fails, otherwise 204 with exactly that assignment removed |
| AuthMiddleware.VerifyToken | backend/utils/auth_middleware.py:19-37 | a token is accepted iff the verifier returns an identity, which is returned; otherwise 401 "Invalid or expired authentication token" |
| AuthMiddleware.FindUserByEmailSpec | backend/utils/auth_middleware.py:52 | the e-mail lookup finds a stored user iff one has that e-mail, and for a non-null e-mail it is the only one |
| AuthMiddleware.GetCurrentUserSpec | backend/utils/auth_middleware.py:39-78 | 401 for a token that fails verification, 404 iff no user has the identity's e-mail, 403 iff that user is inactive, otherwise that stored, active user |
| AuthMiddleware.GetCurrentUserIdSpec | backend/utils/auth_middleware.py:80-86 | the id of the authenticated active user, failing exactly when the user lookup fails and with its error |
| AuthMiddleware.BearerTokenSpec | backend/utils/auth_middleware.py:98-102 | a token is found iff the header is present and starts with "Bearer "; it is the text after "Bearer " up to the next space |
| AuthMiddleware.OptionalAgreesWithStrict | backend/utils/auth_middleware.py:89-109 | the optional user is None for a missing or malformed header and otherwise the strict lookup's user exactly when that lookup succeeds |
| AuthRouter.VerifyFromHeader | backend/routers/auth.py:52-76 | a missing or non-Bearer header and a failed verification both give 401 "Invalid or expired authentication token"; otherwise the verified identity |
| AuthRouter.UserResponseOf | backend/routers/auth.py:24-31 | serialising a user succeeds iff e-mail and full name are not NULL (500 otherwise) |
| AuthRouter.DefaultFullNameSpec | backend/routers/auth.py:99 | a new user's name is the token's name when non-empty, otherwise the e-mail's local part (the prefix before the first '@'), absent without an e-mail |
| Models.Db.PutUser | backend/routers/auth.py:92-111 | storing a user that keeps its stored e-mail, or a new user under the next id with an e-mail nobody has, keeps the store valid, advances the counter only for a new user and changes no other table |
| AuthRouter.RegisterUser | backend/routers/auth.py:78-125 | 401 for a bad header or token; a known e-mail logs that user in, changing only `last_login` and `updated_at` (the column's `onupdate` stamp); an unknown one adds exactly one active user under the next id; 201 either way; 500 with nothing stored when there is neither name nor e-mail |
| AuthRouter.LoginIdempotent | backend/routers/auth.py:90-96 | a login sets `last_login` and `updated_at` to the login instant and keeps every other column; logging in twice at the same instant is logging in once |
| AuthRouter.ProfileCountsSpec | backend/routers/auth.py:133-138 | the profile counts are the numbers of the user's courses and of the assignments of those courses |
| AuthRouter.ProfileOf | backend/routers/auth.py:140-156 | the profile carries the user's fields, both counts and verified = true; a NULL e-mail or name fails with 500 |
| AuthRouter.PatchedSpec | backend/routers/auth.py:168-175 | only a given field changes, to the given value; everything else except `updated_at` is kept; patching twice is patching once |
| AuthRouter.UpdateProfile | backend/routers/auth.py:158-206 | an authentication failure is passed on with nothing changed; otherwise only the current user's row is patched and the fresh profile is returned |
| FrontData.DiffDays | frontend/src/utils/assignmentUtils.ts:16-19 | the day difference is the ceiling of the ms difference over one day: the least d with due - now <= d days |
| FrontData.DiffDaysAtMost | frontend/src/utils/assignmentUtils.ts:35-38 | the rounded-up day count is at most k exactly when the due instant is at most k whole days ahead |
| FrontData.DiffDaysExactly | frontend/src/components/courses/CourseAssignmentList.tsx:45-47 | the rounded-up day count is k exactly when the difference lies in the half-open day (k-1, k] |
| FrontData.ErrorMessage | frontend/src/components/AssignmentDialog.tsx:156 | `error.message || fallback`: a non-empty message is shown as is, an empty one is replaced by the fallback |
| FrontData.FindCourse | frontend/src/hooks/useAssignmentList.ts:121-123 | `find`: none exactly when no course has the id; otherwise the first course carrying that id |
| AssignmentService.ApiBase | frontend/src/services/assignmentService.ts:4 | the configured base URL when it is non-empty, else http://localhost:8000 |
| AssignmentService.StatusNamesDistinct | frontend/src/services/assignmentService.ts:203 | the three status names differ, so the name identifies the status |
| AssignmentService.GetDueDateStatus | frontend/src/services/assignmentService.ts:203-211 | overdue exactly when is_overdue; due-soon exactly when not overdue and days_until_due is null (which `<= 3` reads as 0) or a number <= 3; upcoming when it is undefined or above 3 |
| AssignmentService.GetDueDateColor | frontend/src/services/assignmentService.ts:213-219 | error exactly for "overdue", warning exactly for "due-soon", success for every other string |
| AssignmentService.ItemColor | frontend/src/services/assignmentService.ts:203-219 | an item's chip is red exactly when overdue and amber exactly when not overdue with a defined day count that reads as at most 3 |
| AssignmentService.StrParam | frontend/src/services/assignmentService.ts:162 | a text filter is appended exactly when truthy, with its own value |
| AssignmentService.IntParam | frontend/src/services/assignmentService.ts:163 | a number filter is appended exactly when truthy (non-zero), as its decimal text |
| AssignmentService.ZeroOffsetOmitted | frontend/src/services/assignmentService.ts:167-168 | an offset or a limit of 0 is never sent |
| AssignmentService.SentParamsValues | frontend/src/services/assignmentService.ts:161-169 | every appended pair belongs to one of the listed keys and carries that key's filter value |
| AssignmentService.SentParamsOrdered | frontend/src/services/assignmentService.ts:161-169 | pairs come out in the order of the keys |
| AssignmentService.SentParamsPresent | frontend/src/services/assignmentService.ts:161-169 | every truthy filter among the keys is appended |
| AssignmentService.QueryParamsSpec | frontend/src/services/assignmentService.ts:159-169 | the parameters are ordered status, course_id, search, sort_by, order, limit, offset; each carries its filter's value; a key appears exactly when its filter is truthy |
| AssignmentService.BuildParams | frontend/src/services/assignmentService.ts:159-169 | the sequence of appends builds exactly the specified parameter list |
| AssignmentService.SentParamsAppend | frontend/src/services/assignmentService.ts:161-169 | the parameters of two key lists in a row are the parameters of the first followed by those of the second |
| AssignmentService.SentParamsSnoc | frontend/src/services/assignmentService.ts:161-169 | checking one more key appends exactly that key's piece |
| AssignmentService.SentParamsUnfold | frontend/src/services/assignmentService.ts:161-169 | the full parameter list is the seven keys' pieces in source order |
| AssignmentService.HexDigit | frontend/src/services/assignmentService.ts:171 | a hex digit of a percent escape is a character the form encoding leaves alone |
| AssignmentService.Utf8 | frontend/src/services/assignmentService.ts:171 | a character is one to four bytes, an ASCII character its own single byte |
| AssignmentService.PercentBytes | frontend/src/services/assignmentService.ts:171 | percent escapes contain only safe characters and '%' |
| AssignmentService.EncodeChar | frontend/src/services/assignmentService.ts:171 | an encoded character contains only safe characters, '+' and '%' |
| AssignmentService.FormEncode | frontend/src/services/assignmentService.ts:171 | the form encoding produces no '&' or '=' (only safe characters, '+' and '%') |
| AssignmentService.FormEncodeSafe | frontend/src/services/assignmentService.ts:171 | text made of safe characters is sent unchanged |
| AssignmentService.NumbersSentVerbatim | frontend/src/services/assignmentService.ts:163 | a number's decimal text is sent unchanged |
| AssignmentService.UrlQueryIffParams | frontend/src/services/assignmentService.ts:171 | the URL gets "?" and the query exactly when at least one parameter was appended |
| AssignmentService.PairTextSplits | frontend/src/services/assignmentService.ts:171 | a serialised pair holds no '&' and splits at '=' into its encoded key and value |
| AssignmentService.QueryStringPairs | frontend/src/services/assignmentService.ts:171 | the query string splits at '&' back into the serialised pairs, each of which splits back into key and value |
| AssignmentService.HandleApiError | frontend/src/services/assignmentService.ts:47-58 | a response gives its detail or "Server error occurred", a request without answer the network message, anything else the unexpected-error message; never empty |
| FrontOrder.SortOrder.Flipped | frontend/src/components/assignments/AssignmentSortControls.tsx:43 | the toggled order differs from the current one |
| FrontOrder.FlippedTwice | frontend/src/components/assignments/AssignmentSortControls.tsx:42-45 | toggling the order twice restores it |
| FrontOrder.LocaleCompare | frontend/src/utils/assignmentUtils.ts:154 | the title comparison is zero exactly for equal titles |
| FrontOrder.StrLeRefl | frontend/src/utils/assignmentUtils.ts:154 | every title is ordered before or together with itself |
| FrontOrder.LocaleCompareOrder | frontend/src/utils/assignmentUtils.ts:154 | the comparison is non-positive exactly when a precedes or equals b, non-negative exactly when b precedes or equals a |
| FrontOrder.IntKeyComparator | frontend/src/utils/assignmentUtils.ts:151-162 | subtracting a numeric key, negated for descending, is a total preorder that orders by the key in the chosen direction |
| FrontOrder.StrKeyComparator | frontend/src/utils/assignmentUtils.ts:154-162 | comparing a text key, negated for descending, is a total preorder that orders by the key in the chosen direction |
| FrontOrder.SortByIntKey | frontend/src/utils/assignmentUtils.ts:146-162 | sorting a copy by a numeric key gives a permutation of the items ordered by the key, reversed for descending |
| FrontOrder.SortByStrKey | frontend/src/utils/assignmentUtils.ts:146-162 | sorting a copy by a text key gives a permutation of the items in title order, reversed for descending |
| AssignmentListUtils.GetPriorityBorder | frontend/src/utils/assignmentListUtils.tsx:22-27 | error.main exactly for overdue items, warning.main exactly for due-soon items, grey.200 exactly for the rest |
| AssignmentListUtils.BorderMatchesColor | frontend/src/utils/assignmentListUtils.tsx:22-27 | the border agrees with the status chip colour of the same item |
| AssignmentListUtils.Tint | frontend/src/utils/assignmentListUtils.tsx:34-35 | a tinted colour is never the transparent background |
| AssignmentListUtils.GetPriorityBackground | frontend/src/utils/assignmentListUtils.tsx:32-37 | the error and warning tints for overdue and due-soon items; transparent exactly for upcoming items |
| AssignmentListUtils.BackgroundMatchesBorder | frontend/src/utils/assignmentListUtils.tsx:22-37 | the background is transparent exactly when the border is grey |
| AssignmentListUtils.FormatTimeRemaining | frontend/src/utils/assignmentListUtils.tsx:42-43 | the text is empty exactly when days_until_due is undefined (a null count is not empty) |
| AssignmentListUtils.FormatTimeRemainingNumber | frontend/src/utils/assignmentListUtils.tsx:45-53 | an overdue item reads "abs(d) days overdue" with null read as 0, day 0 "Due today", any other number "d days left", a null count not overdue "null days left" |
| AssignmentListUtils.FormatTimeRemainingInjective | frontend/src/utils/assignmentListUtils.tsx:53 | two "days left" texts are equal only for the same day count |
| AssignmentUtils.CalculateAssignmentStatus | frontend/src/utils/assignmentUtils.ts:15-29 | with d the rounded-up day difference: feedback_ready when d < -5, draft_saved when -5 <= d < 2, no_draft otherwise, stated on the ms difference |
| AssignmentUtils.CalculateDueDateInfo | frontend/src/utils/assignmentUtils.ts:34-44 | daysUntilDue is the rounded-up day difference, and isOverdue holds exactly when it is negative |
| AssignmentUtils.TransformAssignmentWithStatus | frontend/src/utils/assignmentUtils.ts:49-58 | every field of the assignment is kept unchanged beside the added status and day fields |
| AssignmentUtils.TransformedStatusConsistent | frontend/src/utils/assignmentUtils.ts:22-43 | the added status is feedback_ready for d <= -6, draft_saved for -5..1 and no_draft for d >= 2; feedback_ready implies overdue and no_draft implies not overdue |
| AssignmentUtils.GetStatusDisplayInfo | frontend/src/utils/assignmentUtils.ts:63-94 | each known status has its label, colour, tint and priority 0, 1 or 2; anything else is "Unknown" with priority 0 |
| AssignmentUtils.PriorityIsSortRank | frontend/src/utils/assignmentUtils.ts:63-157 | the display priority of a status is its sort rank, and distinct statuses have distinct priorities |
| AssignmentUtils.GetDueDateDisplayInfo | frontend/src/utils/assignmentUtils.ts:99-136 | overdue, then 0 days "Due today", 1 day "Due tomorrow", else "Due in d days"; urgent exactly in the first three cases; no severity exactly beyond 7 days |
| AssignmentUtils.SeverityByDays | frontend/src/utils/assignmentUtils.ts:99-136 | for a transformed assignment the severity is high for d <= 0, medium for 1, low for 2..7, none beyond 7 |
| AssignmentUtils.SortAssignmentsSpec | frontend/src/utils/assignmentUtils.ts:141-164 | the sorted copy is a permutation ordered by due instant, by title or by status rank no_draft < draft_saved < feedback_ready, reversed for descending |
| SortControls.OptionOf | frontend/src/components/assignments/AssignmentSortControls.tsx:115-127 | title and created_at select their own keys; any other value falls back to due_date |
| SortControls.GetSortLabel | frontend/src/components/assignments/AssignmentSortControls.tsx:47-54 | "Title" exactly for title, "Created" exactly for created_at, "Due Date" for every other value |
| SortControls.LabelOfOption | frontend/src/components/assignments/AssignmentSortControls.tsx:47-127 | the label always names the key the sort actually uses |
| SortControls.HandleSortByChange | frontend/src/components/assignments/AssignmentSortControls.tsx:38-40 | the new sort key is taken and the order kept |
| SortControls.HandleOrderToggle | frontend/src/components/assignments/AssignmentSortControls.tsx:42-45 | the key is kept and the order changes |
| SortControls.OrderToggleTwice | frontend/src/components/assignments/AssignmentSortControls.tsx:38-45 | toggling twice restores the state, and toggling commutes with a change of key |
| SortControls.SortAssignmentsSpec | frontend/src/components/assignments/AssignmentSortControls.tsx:107-131 | the sorted copy is a permutation ordered by the selected key, by due date for an unknown key, reversed for descending |
| CourseAssignmentList.GetAssignmentStatusIntervals | frontend/src/components/courses/CourseAssignmentList.tsx:43-74 | on the instant the four chips are four consecutive intervals: Overdue a whole day or more past due, Due Soon up to 3 days ahead, This Week up to 7, Upcoming beyond; the chip is filled exactly up to 3 days ahead |
| CourseAssignmentList.OverdueWords | frontend/src/components/courses/CourseAssignmentList.tsx:82-83 | an overdue caption reads "n day overdue" for n = 1 and "n days overdue" otherwise |
| CourseAssignmentList.DueInWords | frontend/src/components/courses/CourseAssignmentList.tsx:88-89 | two or more days ahead reads "Due in n days" |
| CourseAssignmentList.GetTimeRemainingWords | frontend/src/components/courses/CourseAssignmentList.tsx:76-91 | by the rounded-up day difference d: "abs(d) day(s) overdue" for d < 0, "Due today" for 0, "Due tomorrow" for 1, "Due in d days" from 2 |
| CourseAssignmentList.SortedAssignmentsSpec | frontend/src/components/courses/CourseAssignmentList.tsx:94-101 | the sorted copy is a permutation of the course's assignments, earliest due first for ascending and latest first for descending |
| CourseAssignmentList.GetStatusChipLabel | frontend/src/components/courses/CourseAssignmentList.tsx:104-112 | "Feedback ready" exactly for feedback_ready, "Draft saved" exactly for draft_saved, "No draft" for anything else including no status |
| UpcomingAssignments.MessageAgreesWithCoursePage | frontend/src/components/dashboard/UpcomingAssignments.tsx:52-62 | the dashboard caption equals the course page's caption for every day difference except -1, which reads "1 days overdue" here |
| UpcomingAssignments.FormatDueDateMessageIntervals | frontend/src/components/dashboard/UpcomingAssignments.tsx:52-62 | "Due today" exactly when the due instant lies in the day up to now, "Due tomorrow" exactly in the day after now |
| UpcomingAssignments.GetPriorityBorder | frontend/src/components/dashboard/UpcomingAssignments.tsx:38-43 | error.main exactly for overdue items, warning.main exactly for due-soon items, grey.200 for the rest |
| UpcomingAssignments.BorderAgreesWithList | frontend/src/components/dashboard/UpcomingAssignments.tsx:38-43 | the dashboard border is the list page's border for every item |
| UpcomingAssignments.ChipLabel | frontend/src/components/dashboard/UpcomingAssignments.tsx:148 | "Overdue" exactly for overdue items, "Due Soon" and "Upcoming" exactly for their statuses |
| UpcomingAssignments.CourseName | frontend/src/components/dashboard/UpcomingAssignments.tsx:121-160 | "Unknown Course" when no course has the id; any other name is the name of the first course with that id |
| UpcomingAssignments.CourseNameOfFirst | frontend/src/components/dashboard/UpcomingAssignments.tsx:121-160 | the first course with the id gives its name, or "Unknown Course" when that name is empty |
| DashboardStats.OrZero | frontend/src/components/dashboard/DashboardStats.tsx:43-46 | a missing stat reads as 0 |
| DashboardStats.RoundRatio | frontend/src/components/dashboard/DashboardStats.tsx:49 | `Math.round`: the integer nearest to the ratio, halves rounded up |
| DashboardStats.CompletionRate | frontend/src/components/dashboard/DashboardStats.tsx:48-50 | 0 without assignments, otherwise 100 * completed / total rounded to the nearest integer |
| DashboardStats.CompletionRateBounds | frontend/src/components/dashboard/DashboardStats.tsx:48-50 | the rate of 0 <= completed <= total lies in 0..100, and is 100 when everything is completed |
| DashboardStats.NothingCompletedRate | frontend/src/components/dashboard/DashboardStats.tsx:48-50 | nothing completed gives the rate 0 |
| DashboardStats.StatCards | frontend/src/components/dashboard/DashboardStats.tsx:42-50 | the four counts default to 0; completed is what the three buckets leave of the total; the rate is the completion rate |
| DashboardStats.PartitionedStatsCompleteNothing | frontend/src/components/dashboard/DashboardStats.tsx:47 | with stats whose three buckets add up to the total, as the backend's do, completed and the rate are both 0 |
| DashboardWelcome.GetGreeting | frontend/src/components/dashboard/DashboardWelcome.tsx:14-19 | "Good morning" exactly before 12, "Good afternoon" exactly from 12 to 16, "Good evening" exactly from 17 |
| DashboardWelcome.StatusParts | frontend/src/components/dashboard/DashboardWelcome.tsx:23-25 | one part per positive count, the due-soon part first and the overdue part last |
| DashboardWelcome.GetStatusMessage | frontend/src/components/dashboard/DashboardWelcome.tsx:21-29 | the message built by the pushes and the join is the specified one |
| DashboardWelcome.StatusMessageCases | frontend/src/components/dashboard/DashboardWelcome.tsx:21-29 | no stats gives the ready message; the caught-up message exactly when neither count is positive; otherwise "You have " + due soon, " and ", overdue + "." with the missing part left out |
| DashboardWelcome.FirstName | frontend/src/components/dashboard/DashboardWelcome.tsx:34 | the greeting name holds no space, is a prefix of the display name unless it is "Student", and is the first word whenever that word is non-empty |
| DashboardWelcome.FirstNameCases | frontend/src/components/dashboard/DashboardWelcome.tsx:34 | no name, an empty name or one starting with a space give "Student"; "word rest" gives "word" |
| CourseManagement.ReplaceById | frontend/src/hooks/useCourseManagement.ts:129 | the list keeps its length; exactly the entries with the edited id are replaced by the updated course, every other entry is unchanged |
| CourseManagement.ReplaceByIdIdentity | frontend/src/hooks/useCourseManagement.ts:129 | replacing an id nobody has, or with an identical course, leaves the list unchanged |
| CourseManagement.RemoveById | frontend/src/hooks/useCourseManagement.ts:153 | a course stays in the list exactly when it was there and has a different id |
| CourseManagement.RemoveByIdSpec | frontend/src/hooks/useCourseManagement.ts:153 | courses with other ids keep their multiplicity; removing an absent id changes nothing |
| CourseManagement.TargetCourseId | frontend/src/hooks/useCourseManagement.ts:106-141 | `courseId || selectedCourseId`: a truthy argument wins, otherwise the menu's selection |
| CourseManagement.TargetCourse | frontend/src/hooks/useCourseManagement.ts:106-108 | the course found carries the target id and is in the list; none exactly without a target or without a course of that id |
| CourseManagement.Payload | frontend/src/hooks/useCourseManagement.ts:86-127 | the request body carries the form fields unchanged |
| CourseManagement.CreateRequest | frontend/src/hooks/useCourseManagement.ts:83-92 | a body is sent exactly when neither the name nor the term is blank |
| CourseManagement.UpdateRequest | frontend/src/hooks/useCourseManagement.ts:118-127 | a body is sent exactly when neither the edited name nor term is blank and a course is being edited |
| CourseManagement.DeleteRequest | frontend/src/hooks/useCourseManagement.ts:140-148 | an id is sent exactly when the `courseId || selectedCourseId` target is truthy and the user confirmed, and it is that target |
| CourseManagement.ListHandlersKeepConsistent | frontend/src/hooks/useCourseManagement.ts:12-102 | the initial state is consistent (menu anchor iff selected course, an open edit dialog has its course, no request pending) and loading, opening the create dialog, creating and closing the snackbar keep it so |
| CourseManagement.MenuHandlersKeepConsistent | frontend/src/hooks/useCourseManagement.ts:65-137 | opening and closing the menu, opening the edit dialog and updating keep the state consistent |
| CourseManagement.DeleteKeepsConsistent | frontend/src/hooks/useCourseManagement.ts:140-159 | deleting keeps the state consistent |
| CourseManagement.CreateGuardIsTrim | frontend/src/hooks/useCourseManagement.ts:84-119 | the create guard is "trimmed name and term not empty"; the update guard also needs a course being edited |
| CourseManagement.GuardsAreNoOps | frontend/src/hooks/useCourseManagement.ts:76-120 | a failed guard sends nothing and changes nothing; right after opening the create dialog the form is empty and cannot be sent |
| CourseManagement.CreateSpec | frontend/src/hooks/useCourseManagement.ts:83-102 | a created course is appended at the end, the dialog closes and a success notice shows; a failure keeps the list and shows a non-empty error |
| CourseManagement.EditThenSave | frontend/src/hooks/useCourseManagement.ts:105-137 | opening edit closes the menu and fills the form from the course, so saving at once sends that course's own values; a success replaces exactly the entries with its id |
| CourseManagement.DeleteSpec | frontend/src/hooks/useCourseManagement.ts:140-159 | a confirmed truthy target closes the menu, and a success removes exactly the courses with that id; without a target or confirmation nothing changes |
| CourseManagement.FailuresKeepCourses | frontend/src/hooks/useCourseManagement.ts:48-159 | no failed request and no opening of the edit dialog changes the course list |
| CourseManagement.SnackbarCloseSpec | frontend/src/hooks/useCourseManagement.ts:161-163 | closing the snackbar hides it, keeps its text and severity, and is idempotent |
| CourseManagement.CourseManagementHook.constructor | frontend/src/hooks/useCourseManagement.ts:12-41 | the hook starts in the initial state |
| CourseManagement.CourseManagementHook.LoadCourses | frontend/src/hooks/useCourseManagement.ts:48-62 | the new state is the load step of the old one |
| CourseManagement.CourseManagementHook.CourseMenuOpen | frontend/src/hooks/useCourseManagement.ts:65-68 | the new state is the menu-open step |
| CourseManagement.CourseManagementHook.CourseMenuClose | frontend/src/hooks/useCourseManagement.ts:70-73 | the new state is the menu-close step |
| CourseManagement.CourseManagementHook.OpenCreateDialog | frontend/src/hooks/useCourseManagement.ts:76-81 | the new state is the open-create step |
| CourseManagement.CourseManagementHook.CreateCourse | frontend/src/hooks/useCourseManagement.ts:83-102 | the body sent is CreateRequest of the old state and the new state is the create step |
| CourseManagement.CourseManagementHook.FinishCreate | frontend/src/hooks/useCourseManagement.ts:93-101 | a created course is appended, the create dialog closes and the success message shows; a failure shows the error message or the fallback and changes nothing else; the loading flag ends false either way |
| CourseManagement.CourseManagementHook.OpenEditDialog | frontend/src/hooks/useCourseManagement.ts:105-116 | the new state is the open-edit step |
| CourseManagement.CourseManagementHook.FillEditForm | frontend/src/hooks/useCourseManagement.ts:108-113 | the edit form holds the course's name, term and description (empty when missing) and the dialog is open |
| CourseManagement.CourseManagementHook.UpdateCourse | frontend/src/hooks/useCourseManagement.ts:118-137 | the body sent is UpdateRequest of the old state and the new state is the update step |
| CourseManagement.CourseManagementHook.FinishUpdate | frontend/src/hooks/useCourseManagement.ts:128-136 | the updated course replaces the one with the edited id, the edit dialog closes and the success message shows; a failure shows the error message or the fallback and changes nothing else; the loading flag ends false either way |
| CourseManagement.CourseManagementHook.DeleteCourse | frontend/src/hooks/useCourseManagement.ts:140-159 | the id sent is DeleteRequest of the old state and the new state is the delete step |
| CourseManagement.CourseManagementHook.SnackbarClose | frontend/src/hooks/useCourseManagement.ts:161-163 | the new state is the snackbar-close step |
| AssignmentListState.GetStatusFilter | frontend/src/hooks/useAssignmentList.ts:112-119 | tab 1 overdue, 2 due_soon, 3 upcoming, and no status for any other tab |
| AssignmentListState.ToggledOrder | frontend/src/hooks/useAssignmentList.ts:147-152 | asc becomes desc, anything else becomes asc |
| AssignmentListState.ToggledOrderTwice | frontend/src/hooks/useAssignmentList.ts:147-152 | toggling twice restores asc or desc |
| AssignmentListState.CourseParam | frontend/src/hooks/useAssignmentList.ts:96-97 | the course is sent exactly when a truthy one is selected |
| AssignmentListState.CurrentFiltersSent | frontend/src/hooks/useAssignmentList.ts:91-98 | the query carries the search text exactly when the box is not empty, the course exactly when truthy, the active tab's status and the persistent sort; order is asc or desc, limit 50, no offset |
| AssignmentListState.LoadInitialRequest | frontend/src/hooks/useAssignmentList.ts:62-89 | the assignments are requested exactly when courses and stats were loaded |
| AssignmentListState.AssignmentClickTarget | frontend/src/hooks/useAssignmentList.ts:160-164 | a click leads to /assignments/<id> with /assignments as the page it came from |
| AssignmentListState.AssignmentClickInjective | frontend/src/hooks/useAssignmentList.ts:160-164 | different assignments lead to different routes |
| AssignmentListState.FilterHandlersKeepConsistent | frontend/src/hooks/useAssignmentList.ts:22-152 | the initial filters (due_date, asc, limit 50) are consistent and the tab, search, course, sort and order handlers keep them so |
| AssignmentListState.LoadHandlersKeepConsistent | frontend/src/hooks/useAssignmentList.ts:62-177 | view-mode changes, opening the dialog and every load keep the filters consistent |
| AssignmentListState.FilterHandlersSpec | frontend/src/hooks/useAssignmentList.ts:138-152 | toggling the order twice restores the state; a sort change replaces only sort_by; clearing the course removes course_id from filters and query |
| AssignmentListState.AssignmentCreatedNotice | frontend/src/hooks/useAssignmentList.ts:170-177 | after a creation the list, courses and stats are reloaded beside a success notice, or the matching failure is reported and the old data kept; loading ends |
| AssignmentListState.AssignmentListHook.constructor | frontend/src/hooks/useAssignmentList.ts:22-45 | the hook starts in the initial state |
| AssignmentListState.AssignmentListHook.LoadAssignments | frontend/src/hooks/useAssignmentList.ts:91-110 | the filters sent are CurrentFilters of the old state and the new state is the load step |
| AssignmentListState.AssignmentListHook.LoadInitialData | frontend/src/hooks/useAssignmentList.ts:62-89 | the filters sent are LoadInitialRequest and the new state is the initial-load step |
| AssignmentListState.AssignmentListHook.TabChange | frontend/src/hooks/useAssignmentList.ts:126-128 | the new state is the tab step |
| AssignmentListState.AssignmentListHook.SearchChange | frontend/src/hooks/useAssignmentList.ts:130-136 | the new state is the search step |
| AssignmentListState.AssignmentListHook.CourseFilter | frontend/src/hooks/useAssignmentList.ts:138-141 | the new state is the course-filter step |
| AssignmentListState.AssignmentListHook.SortChange | frontend/src/hooks/useAssignmentList.ts:143-145 | the new state is the sort step |
| AssignmentListState.AssignmentListHook.OrderChange | frontend/src/hooks/useAssignmentList.ts:147-152 | the new state is the order step |
| AssignmentListState.AssignmentListHook.ViewModeChange | frontend/src/hooks/useAssignmentList.ts:154-158 | the new state is the view-mode step |
| AssignmentListState.AssignmentListHook.CreateAssignment | frontend/src/hooks/useAssignmentList.ts:166-168 | the new state is the open-dialog step |
| AssignmentListState.AssignmentListHook.AssignmentCreated | frontend/src/hooks/useAssignmentList.ts:170-177 | the new state is the created step |
| AssignmentPage.GetReferrerPath | frontend/src/pages/assignments/AssignmentPage.tsx:63-76 | the router's from when present; otherwise /dashboard exactly when the referrer contains /dashboard, and /assignments exactly when it does not |
| AssignmentPage.BackFromList | frontend/src/pages/assignments/AssignmentPage.tsx:63-76 | an assignment opened from the list leads back to the list, whatever the referrer |
| AssignmentPage.FormOf | frontend/src/pages/assignments/AssignmentPage.tsx:93-98 | the edit form filled from an assignment holds its title, description, prompt and due date |
| AssignmentPage.FieldNamed | frontend/src/pages/assignments/AssignmentPage.tsx:132-134 | a key names at most one of the four form fields, and names it exactly when it is that field's name |
| AssignmentPage.EditFormChangeSpec | frontend/src/pages/assignments/AssignmentPage.tsx:132-134 | a change sets the named field to the value and keeps the three others; an unknown key changes none of them |
| AssignmentPage.DiffPatchSpec | frontend/src/pages/assignments/AssignmentPage.tsx:141-146 | the patch holds exactly the fields whose edited value differs, with the edited values, never null; applying it yields the form; an unchanged form yields the empty patch |
| AssignmentPage.PageView | frontend/src/pages/assignments/AssignmentPage.tsx:206-216 | the content shows exactly when nothing is loading, there is no error and both the assignment and the course are loaded; an error alert is never empty |
| AssignmentPage.FetchCourseRequest | frontend/src/pages/assignments/AssignmentPage.tsx:79-111 | the course is requested exactly when the route has an id and the assignment loaded, and it is the assignment's course |
| AssignmentPage.FetchView | frontend/src/pages/assignments/AssignmentPage.tsx:79-216 | from the start the content shows exactly when the id, the assignment and the course are all there; no id shows the "no id" error; a failed load without message shows the fallback |
| AssignmentPage.SaveRequest | frontend/src/pages/assignments/AssignmentPage.tsx:136-146 | a save sends exactly when an assignment is loaded, under that assignment's id |
| AssignmentPage.SaveAndCancelSpec | frontend/src/pages/assignments/AssignmentPage.tsx:136-177 | a success replaces the assignment and leaves edit mode; a failure keeps assignment, mode and form and shows an error; cancelling leaves edit mode with the four fields reset, so a save then sends an empty patch, as it does right after loading |
| AssignmentPage.DeleteNavigation | frontend/src/pages/assignments/AssignmentPage.tsx:179-200 | a successful delete of a loaded assignment navigates to the referrer path, anything else stays |
| AssignmentPage.Page.constructor | frontend/src/pages/assignments/AssignmentPage.tsx:31-60 | the page starts in the initial state |
| AssignmentPage.Page.FetchData | frontend/src/pages/assignments/AssignmentPage.tsx:79-111 | the course request is FetchCourseRequest and the new state is the fetch step |
| AssignmentPage.Page.MenuOpen | frontend/src/pages/assignments/AssignmentPage.tsx:114-116 | only the menu anchor is set |
| AssignmentPage.Page.MenuClose | frontend/src/pages/assignments/AssignmentPage.tsx:118-120 | the new state is the menu-close step |
| AssignmentPage.Page.EditClick | frontend/src/pages/assignments/AssignmentPage.tsx:122-125 | edit mode on and the menu closed |
| AssignmentPage.Page.DeleteClick | frontend/src/pages/assignments/AssignmentPage.tsx:127-130 | the delete dialog open and the menu closed |
| AssignmentPage.Page.ChangeEditForm | frontend/src/pages/assignments/AssignmentPage.tsx:132-134 | only the edit form changes, by EditFormChange |
| AssignmentPage.Page.SaveEdit | frontend/src/pages/assignments/AssignmentPage.tsx:136-165 | the request sent is SaveRequest of the old state and the new state is the save step |
| AssignmentPage.Page.CancelEdit | frontend/src/pages/assignments/AssignmentPage.tsx:167-177 | the new state is the cancel step |
| AssignmentPage.Page.DeleteConfirm | frontend/src/pages/assignments/AssignmentPage.tsx:179-200 | the navigation is DeleteNavigation and the new state is the delete step |
| AssignmentDialog.PreselectedOrZero | frontend/src/components/AssignmentDialog.tsx:85 | `preselectedCourseId || 0` |
| AssignmentDialog.ValidateFormOrder | frontend/src/components/AssignmentDialog.tsx:117-137 | each message is reported exactly when its check fails and all earlier ones pass: blank title, blank prompt, course 0, due not after now; valid exactly when all pass |
| AssignmentDialog.SubmitRequest | frontend/src/components/AssignmentDialog.tsx:114-149 | a body is sent exactly when every check passes |
| AssignmentDialog.SubmitRequestSpec | frontend/src/components/AssignmentDialog.tsx:143-149 | the sent title and prompt are non-empty without white space at either end, the description trimmed, the course chosen and the due date after now |
| Strings.TrimShape | frontend/src/components/AssignmentDialog.tsx:144-146 | `trim` leaves no white space of JavaScript's set (Unicode Zs separators, tab, line terminators, BOM) at either end, and trimming again changes nothing |
| AssignmentDialog.FormValidAgreesWithSubmit | frontend/src/components/AssignmentDialog.tsx:117-174 | an enabled button with a future due date submits; an accepted form with a non-negative course id enables the button; an enabled button with a past due date fails on the date |
| AssignmentDialog.ApplyPreselected | frontend/src/components/AssignmentDialog.tsx:93-100 | only the course id can change, and only to a truthy preselected id that exists among the loaded courses |
| AssignmentDialog.ResetFormSpec | frontend/src/components/AssignmentDialog.tsx:77-172 | the reset form already carries the preselected course, so the effect keeps it, and it can never be submitted |
| AssignmentDialog.SubmitNextSpec | frontend/src/components/AssignmentDialog.tsx:114-160 | a failed check shows its message and keeps the form; a created assignment clears the error and resets the form; a failed request shows a non-empty error and keeps the form |
| AssignmentDialog.Dialog.constructor | frontend/src/components/AssignmentDialog.tsx:53-72 | the dialog starts closed, with an empty form and no course |
| AssignmentDialog.Dialog.Open | frontend/src/components/AssignmentDialog.tsx:77-112 | the new state is the open step |
| AssignmentDialog.Dialog.Close | frontend/src/components/AssignmentDialog.tsx:162-172 | the new state is the close step |
| AssignmentDialog.Dialog.Submit | frontend/src/components/AssignmentDialog.tsx:114-160 | the body sent is SubmitRequest of the old form and the new state is the submit step |
| Header.GetPageTitle | frontend/src/components/layout/Header.tsx:80-86 | /dashboard Dashboard, exactly /assignments Assignments, other /assignments/ paths Assignment Details, /profile Profile, anything else the title prop |
| Header.GetActiveNavItem | frontend/src/components/layout/Header.tsx:89-95 | assignments exactly for paths starting with /assignments, profile exactly for /profile, dashboard for everything else |
| Header.FirstCharsFromWords | frontend/src/components/layout/Header.tsx:228 | at most one character per word, each the first character of a non-empty word |
| Header.Initials | frontend/src/components/layout/Header.tsx:228 | never empty and never a space; CP without a name |
| Header.InitialsOfWords | frontend/src/components/layout/Header.tsx:228 | a name of non-empty words joined by spaces yields their first characters in order |
| Header.FirstCharsOfNonEmpty | frontend/src/components/layout/Header.tsx:228 | non-empty words contribute one character each, in order |
| Header.EmptyNameInitials | frontend/src/components/layout/Header.tsx:228 | an empty name shows CP |
| Header.SignOutNavigation | frontend/src/components/layout/Header.tsx:55-63 | a successful sign-out leads to /login, a failed one nowhere |
| Header.MenuDestinationsHighlighted | frontend/src/components/layout/Header.tsx:66-95 | the profile, dashboard and assignments entries lead to pages the header titles and highlights as themselves |
| Sidebar.Ids | frontend/src/components/layout/Sidebar.tsx:63-144 | the ids of the items, one per item in order |
| Sidebar.EnabledItems | frontend/src/components/layout/Sidebar.tsx:63-144 | the enabled items are exactly dashboard, assignments, courses and profile, in that order |
| Sidebar.ItemIdsDistinct | frontend/src/components/layout/Sidebar.tsx:63-144 | no two entries share an id |
| Sidebar.IsActive | frontend/src/components/layout/Sidebar.tsx:152-157 | the dashboard item is active only on the exact path; every other item is active when the path starts with its own |
| Sidebar.HandleNavigation | frontend/src/components/layout/Sidebar.tsx:146-150 | a disabled item neither navigates nor closes the drawer; any other navigates to its path and closes it |
| Sidebar.ClickHighlightsItem | frontend/src/components/layout/Sidebar.tsx:63-157 | clicking an item navigates exactly when it is enabled, and then that item is highlighted |
| Sidebar.HeaderAgreesWithSidebar | frontend/src/components/layout/Sidebar.tsx:152-157 | header and sidebar highlight the same entry on /dashboard, under /assignments and on /profile; under /courses the header marks the dashboard while the sidebar marks the courses entry |
| V0Convert.Tokens | frontend/scripts/v0-convert.js:109 | the tokens hold no space and none is blank |
| V0Convert.SxEntries | frontend/scripts/v0-convert.js:112-116 | at most one entry per class, each a value of the class table (the Tailwind-to-MUI table in the script) |
| V0Convert.SxEntriesConcat | frontend/scripts/v0-convert.js:112-116 | each class contributes independently, in input order |
| V0Convert.SxEntriesSingle | frontend/scripts/v0-convert.js:113-115 | a known class contributes its table entry, an unknown one nothing |
| V0Convert.SxEntriesEmptyIff | frontend/scripts/v0-convert.js:112-118 | no entries exactly when no class is known |
| V0Convert.UnknownDropped | frontend/scripts/v0-convert.js:113-115 | an unknown class can be removed without changing the entries |
| V0Convert.DuplicatesKept | frontend/scripts/v0-convert.js:112-116 | a repeated known class contributes its entry twice |
| V0Convert.ConvertTailwindToSx | frontend/scripts/v0-convert.js:108-119 | the result is the sx text of the Tailwind-to-MUI entries of the tokens, and it is empty exactly when no token is in that table |
| V0Convert.ConvertWith | frontend/scripts/v0-convert.js:108-119 | the same loop over any class table: the sx text of the table's entries of the tokens, empty exactly when the table knows no token |
| V0Convert.BlankHasNoTokens | frontend/scripts/v0-convert.js:109-118 | a blank class name has no tokens and converts to "" |
| V0Convert.BlankPiecesBlank | frontend/scripts/v0-convert.js:109 | splitting a blank text yields blank pieces only |
| V0Convert.FilterNone | frontend/scripts/v0-convert.js:109 | dropping blank pieces from blank pieces leaves nothing |
| V0Convert.SingleKnownClass | frontend/scripts/v0-convert.js:108-119 | one known class converts to "sx={{ " + its entry + " }}" |
| V0Integration.SxOfConcat | frontend/src/utils/v0Integration.ts:70-74 | the sx object of a + b is that of b spread over that of a |
| V0Integration.SxOfKeys | frontend/src/utils/v0Integration.ts:71-73 | a key is in the sx object exactly when some known class sets it |
| V0Integration.LaterOverrides | frontend/src/utils/v0Integration.ts:71-73 | for a shared key the last known class that sets it wins |
| V0Integration.UnknownIgnored | frontend/src/utils/v0Integration.ts:71-73 | an unknown class changes nothing |
| V0Integration.SxOfSnoc | frontend/src/utils/v0Integration.ts:70-74 | one more class spreads its object over the ones before |
| V0Integration.ConvertedProps | frontend/src/utils/v0Integration.ts:62-85 | sx exactly when className is truthy; onClick copied as is; disabled only when true; variant exactly when truthy, with its value |
| V0Integration.Spread | frontend/src/utils/v0Integration.ts:66-77 | the loop builds exactly the specified sx object |
| V0Integration.ConvertV0Props | frontend/src/utils/v0Integration.ts:62-85 | the method builds exactly the converted props |
| V0Integration.ComponentName | frontend/src/utils/v0Integration.ts:92-102 | the component is a value of the component table; Box exactly for div and for unknown types |
| V0Integration.CreateMuiComponent | frontend/src/utils/v0Integration.ts:88-106 | the component is the mapped name and its props the converted ones |
| CrossLayer.ReceivedItem | backend/schemas/assignment.py:56-72 | an item served by the backend reaches the list page overdue exactly when the backend says so; its day count is null exactly when overdue and the backend's count otherwise, never undefined; the naive due date is read in the browser's zone, shifted by its offset |
| CrossLayer.ServedCaption | frontend/src/utils/assignmentListUtils.tsx:42-53 | every overdue item the backend serves is captioned "0 days overdue"; one still due reads "Due today" on day 0 and the backend's whole days "days left" otherwise |
| CrossLayer.FrontStatusOfServedItem | frontend/src/services/assignmentService.ts:203-211 | on a served item the page reports overdue exactly for the backend's overdue bucket, and due soon exactly when the due instant is less than 4 days ahead, which the backend also counts as due soon |
| CrossLayer.DueSoonWindowsDiffer | backend/routers/assignments.py:43-52 | an assignment due in 5 days is due soon for the backend and upcoming on the page |
| CrossLayer.DueNowDiffers | frontend/src/components/AssignmentDialog.tsx:134 | a form due exactly now is refused by the dialog while the backend schema accepts that instant |
| CrossLayer.DialogStricterThanBackend | backend/schemas/assignment.py:12-21 | every due date the dialog accepts is accepted by the backend schema |

## Left out

**Outside the services.**
- Token verification with the identity provider is an opaque function from a token to an optional identity. The provider's own checks are not modelled.
- The HTTP framework itself is not modelled: routing, dependency injection, `HTTPBearer`'s header extraction, and serialisation to JSON. The model takes the parsed request and gives the status code and body.
- SQLAlchemy sessions and the database engine are not modelled. Commit, refresh and rollback become "the new store" or "the store unchanged".
  - An integrity error on a delete can only come from the engine, because the ORM cascades keep the modelled constraints. It is an input flag `commitFails`.
  - Foreign keys are assumed enforced.
- Logging is left out, and so are the console output and the database health check.

**Time and numbers.**
- Clocks are parameters. The due-date validator reads a naive date-time as UTC and an aware one by its offset, as the source's comparison does.
- ValidateDueDate: its result, which is what gets stored, is the UTC instant. The source returns the aware value unchanged into a naive `DateTime` column. For a non-UTC offset the instant kept then depends on the database engine: SQLite keeps the wall-clock reading, which is not modelled.
- The browser's UTC offset is a parameter of `CrossLayer.ReceivedItem`, and a single fixed value: daylight-saving changes between instants are not modelled.
- Frontend dates are milliseconds. Invalid dates (`NaN`) and `toISOString` are not modelled, nor is the dialog's default due date (tomorrow, 23:59 local time), which is a parameter.
- Locale-dependent text is not modelled: `formatDueDate`, `toLocaleDateString` and the like.
- `Math.round` on the completion rate is exact integer rounding, half up. JavaScript floating point is not modelled.

**Text.**
- `localeCompare` is the lexicographic order of code points, `StrLe`. Locale collation is not modelled.
- The `ilike` title search is a case-insensitive substring test with ASCII case folding. SQL wildcards inside the search text are not interpreted.
- A NULL title never matches a search and sorts before every other title. That is one engine's choice.
- The `/assignments` listing with a negative `limit` is modelled as "no limit", as SQLite treats it.

**Frontend machinery.**
- React rendering, MUI styling, theme colours and `alpha`, dialogs, snackbars' timing and `window.confirm` are not modelled. Confirmation is a boolean parameter.
- React effects and batching are explicit handler calls that run to completion.
  - A hook's intermediate loading flags, set and cleared within one handler, show only their final value.
  - `console` output is dropped.
- Axios and HTTP calls are not modelled. Each request's answer is an `Outcome` parameter.
- Route parameters arrive already parsed: `parseInt` of the id is not modelled.
- `handleEditFormChange` adds an unknown key to the form object. The model keeps only the four fields the page reads.
- JavaScript prototype keys are not modelled. `tailwindToMui['constructor']` and the like are treated as absent keys.
- `String(detail)` of a non-text error detail is not modelled. A detail is text or absent.
- `onClick` handlers are identifiers that are copied unchanged.
- The `children` that `createMuiComponent` passes through are not modelled.

**v0 tooling.**
- `frontend/scripts/v0-convert.js:121-225` rewrites files with regular expressions and does file I/O. Only `convertTailwindToSx` is modelled.
- The colour palette and the MUI pattern constants in `frontend/src/utils/v0Integration.ts` are plain constants with no logic.

**Unreachable error paths.** The 500 answers of the routers are only modelled where the code can reach them.
- The listing's error path names the shadowed `status` query parameter and is left out.
- The drafts and feedback endpoints, `apiClient.ts`, `AuthContext.tsx` and `ProtectedRoute.tsx` are not part of this model.

**Pages that are not repeated.** Duplicated helpers in other pages are modelled once, in the files listed above: `frontend/src/pages/AssignmentsListPage.tsx`, `frontend/src/pages/DashboardPage.tsx` and `frontend/src/pages/AssignmentPage.tsx`.

**Response models.** Pydantic's `from_attributes` may build a response model without its own `__init__`, and so without computing the derived fields. The model computes them the way the custom initialiser does.
