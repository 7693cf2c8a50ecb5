# OKR app: a verified model of its bookkeeping

This project models the OKR bookkeeping of the OKR app (an Express/Mongo
server and a React client). Objectives carry key results. Each key result has
a current and a target value. Users own OKRs, create them and manage each
other.

## What is modelled

**The store.** The server's two Mongo collections are one `Database.Db`
object. It holds a map of OKRs and a map of users, keyed by id. Its invariant
states:
- each document is filed under its own id;
- titles, e-mail addresses and session tokens are unique;
- stored e-mail addresses are lower-case.

**The OKR service.** Key-result progress and overall progress are computed
with `Math.round`. `create`, `get`, `update` and `delete` change or read that
store. The schema's enumerations, required fields and defaults are predicates
over the `OkrSchema.Okr` datatype.

**The user service and model.** This part covers:
- `createUser` and its order of checks;
- the lookup by e-mail, which ignores case;
- `update`, which runs no validator;
- `delete`;
- `authenticateWithPassword`, in both the model's and the service's form;
- `regenerateToken` and the `toJSON` transform;
- the four-step deletion cascade. Its Team-OKR step pulls the user's *name*
  from owner lists.

**The routes.** The routes are the early-return chains that turn service
results into status codes. Around them sit two middlewares:
- `requireUser`, which reads the second space-separated field of the header;
- `authenticateWithToken`, which uses a case-insensitive `Token|Bearer`
  regular expression.

The OKR routes have no ownership test. The user-management routes gate on
the Admin role. The auth routes are login, register, logout, update-profile
and change-password.

**The client's derived logic:**
- `getQuarter` and the two pages' `getQuarterLabels` loops. These use
  `setMonth` arithmetic, which lets a day past the end of a month spill into
  the next month.
- The two status classifiers and the two `getUserInitials`.
- The OKR list filter and its active-filter count. The date test is
  containment, not overlap.
- The request bodies `createOKR`/`updateOKR` build, with the category
  capitalised.
- The dashboard's filters, month list and monthly averages.
- The employee directory's per-user rollups, search and designations.
- The user-management page, as a class over `users`, `selectedUsers` and
  `roleUpdates`.
- The create and edit dialogs:
  - the owner picker, as a class over `selectedUsers`, the category state
    and the form's `owners`;
  - their defaults and their load;
  - their submit checks, in order. The key results are checked in a loop.

**What stands in for the outside world.** Clocks, random tokens, password
hashing and checking, the schema's test that a password is a hash
(`isPasswordHash`), and JWT signing and verifying become parameters:
functions or values handed to the operations. A request that fails is an
explicit `Result`. Dates are `(year, month, day)` triples.

## Model

| member | source | states |
|---|---|---|
| Database.FindByEmail | server/models/user.js:6-12 | the lookup by e-mail finds the user whose stored (lower-case) address equals the lower-cased query, and only such a user |
| UserSchema.ToJsonSpec | server/models/user.js:62-70 | the serialised object has `id` equal to the input's `_id`, has no `_id`, `password` or `__v`, and keeps every other field unchanged |
| UserSchema.UserJsonSpec | server/models/user.js:62-70 | a serialised stored user exposes its id under `id` and its public fields, and never the password hash |
| UserModel.Save | server/models/user.js:5-60 | a save succeeds exactly when the validators pass (non-empty required fields, lower-case e-mail, a password that passes the `isPasswordHash` parameter, role and department in their enumerations), no other user has the e-mail or the token, and a document that is not new is still stored; the store then holds the document, and on failure nothing changes |
| UserModel.RegenerateToken | server/models/user.js:72-78 | the user gets the fresh token; a new document is not saved, and one that is not new is saved exactly when it is stored, conforms, and no other user has its e-mail or the fresh token |
| UserModel.AuthenticateWithPassword | server/models/user.js:80-91 | null for an unknown e-mail or a password that does not match; otherwise the user with `lastLoginAt` set to now, saved |
| UserService.Get | server/services/user.js:23-30 | the stored user with that id, or none |
| UserService.GetByEmailIgnoresCase | server/services/user.js:32-39 | two addresses that differ only in ASCII case find the same user |
| UserService.ApplyUserPatchSpec | server/services/user.js:41-51 | a patch keeps the id, the password, the token and the timestamps and keeps the e-mail lower-case; a role-only patch changes the role and nothing else |
| UserService.Update | server/services/user.js:41-51 | null and nothing changed for an unknown id; an error and nothing changed when the new e-mail belongs to another user; otherwise the patched user is stored and returned, with no validation |
| UserService.Delete | server/services/user.js:53-61 | true exactly when a user with the id existed; that user is gone afterwards and the OKRs are untouched |
| UserService.CascadeSpec | server/services/user.js:77-92 | from the collection before the cascade: an OKR survives exactly when it is not an Individual OKR the user created; a survivor differs only in its owners, only if it is a Team OKR listing the name, and then no longer lists the name |
| UserService.PullOwnerSpec | server/services/user.js:89-92 | no OKR is deleted; a Team OKR listing the name loses every owner entry equal to it and keeps the other owners in order, even if fewer than two remain; every other OKR is unchanged |
| UserService.CascadeStepsIdempotent | server/services/user.js:77-92 | repeating the delete-many step or the pull step changes nothing more |
| UserService.PullByNameKeepsIdEntries | server/services/user.js:89-92 | a Team OKR that lists the deleted user's id, when the id differs from the name, still lists it after the pull |
| UserService.CascadeKeepsIndexes | server/services/user.js:77-92 | the cascade's OKR steps keep every OKR under its id and keep titles unique |
| UserService.DeleteUserAndHandleOkrs | server/services/user.js:63-111 | for an unknown id: false and nothing changes; otherwise true, the user's Individual OKRs are deleted, the user's name is pulled from Team OKR owners and the user record is gone, so a second call returns false |
| UserService.AuthenticateWithPassword | server/services/user.js:113-132 | an absent or empty e-mail or password throws before any lookup; an unknown e-mail or a wrong password gives null; otherwise the last login is recorded |
| UserService.MissingField | server/services/user.js:167-172 | the first of e-mail, password, name, role, designation and department (in that order) that is absent or empty is reported, and none when all are present |
| UserService.CreateUser | server/services/user.js:158-198 | a missing field is rejected first, then an e-mail already registered (in any case), and neither changes the store; otherwise the user is stored exactly when role and department are in their enumerations, the hash is non-empty and passes `isPasswordHash`, and no other user holds the token, with the hashed password, the given id and token and the lower-cased e-mail |
| OkrService.WithProgress | server/services/okr.js:22-25 | the computed key results keep their positive targets |
| OkrService.WithProgressOfInputs | server/services/okr.js:22-25 | one stored key result per submitted one, with current progress; a progress above 100 is kept, exactly when the value reaches 100.5 % of the target; sending the stored key results back gives the titled inputs again |
| OkrService.ResubmitKeepsKeyResults | server/services/okr.js:78-84 | key results stored with current progress, sent back in an update, are stored again unchanged |
| OkrService.Create | server/services/okr.js:14-39 | the OKR is stored exactly when the dates are in order, key results are supplied, the document passes the validators and its title is free; otherwise the error is the date order, the missing key results, a validation failure or a duplicate title, in that order of checks, and nothing is stored; a stored OKR conforms to the schema, has a title no other OKR has, recomputed key results, overall progress from the raw ratios, the submitted or default status, and dates in order |
| OkrService.Get | server/services/okr.js:56-69 | the OKR with that id, or null for an unknown id |
| OkrService.ApplyPatchProgress | server/services/okr.js:79-89 | progress is recomputed exactly when key results are supplied; otherwise the stored key results stay and so does the progress unless one is supplied; status and id are never computed |
| OkrService.ApplyEmptyPatch | server/services/okr.js:91 | an update with no fields leaves the OKR as it was |
| OkrService.ApplyPatchIdempotent | server/services/okr.js:91 | applying the same update twice equals applying it once |
| OkrService.ApplyPatchSkipsChecks | server/services/okr.js:74 | a payload with only a start date passes the date guard and can store a start after the end; a payload can store a category outside the enumeration |
| OkrService.Update | server/services/okr.js:71-102 | dates out of order (both supplied) are rejected; for an unknown id, null; a title taken by another OKR is a duplicate-key error; otherwise the patched OKR is stored and returned; on every other outcome the store is unchanged |
| OkrService.Delete | server/services/okr.js:104-117 | true exactly for a known id; the OKR is removed and nothing else changes |
| Progress.PercentBounds | server/services/okr.js:24 | a key result with 0 <= current <= target has a percentage between 0 and 100 |
| Progress.KeyResultProgressRange | server/services/okr.js:24 | a key result's progress is not clamped: it exceeds 100 exactly when the current value reaches 100.5 % of the target, is negative exactly below -0.5 % of it, so lies in 0..100 exactly between; a value within its target gives 0..100, a met target 100 |
| Progress.OverallProgressRange | server/services/okr.js:7-11 | overall progress is 0 without key results, lies in 0..100 when every key result is within its target, and is 100 when every target is met |
| Progress.OverallProgressUsesRawRatios | server/services/okr.js:9-10 | overall progress averages raw ratios: key results at 0.5 % and 0.4 % are stored as 1 and 0, yet the OKR's progress is 0 |
| Progress.DisplayedProgressSpec | client/src/components/CreateOKRDialog.tsx:127-129 | the dialogs' percentage never exceeds 100, and for a key result within a positive target it equals the progress the server stores |
| Progress.StatusClassifiersAgree | client/src/pages/OKRs.tsx:88-97 | the detail classifier always names a schema status; the two classifiers agree exactly on progress values in 0..100, and only there does the list classifier name a schema status |
| Progress.DetailStatusBands | client/src/pages/OKRDetail.tsx:34-38 | 0 is "Not Started", 100 is "Completed", and every other value is "In Progress" in the detail classifier; the list classifier gives "In Progress" strictly between 0 and 100 and "Unknown" outside 0..100 |
| Progress.MeanProgressBounds | client/src/pages/Dashboard.tsx:165-169 | the rounded mean progress is 0 for no OKRs and otherwise lies within the range of the averaged values |
| OkrClient.CapitalizeCategorySpec | client/src/api/okr.ts:133-135 | capitalising keeps the length, maps only "" to "", is idempotent, ignores the input's case, and turns "individual"/"team" into "Individual"/"Team" |
| OkrClient.CreateBodySpec | client/src/api/okr.ts:44-69 | a create body exists exactly when the category does; it carries the stored user as creator and the capitalised category, and every other field as given |
| OkrClient.UpdateBodySpec | client/src/api/okr.ts:75-96 | an update body changes nothing but the category, which it capitalises, so building it twice changes nothing more |
| OkrClient.ClientStatusOfKeyResults | client/src/api/okr.ts:117-130 | the client's status always names a schema status; it is "Not Started" when no key result has moved or there are none, and "Completed" when every target is met |
| Dates.AddThreeMonths | client/src/pages/OKRs.tsx:83 | a real date strictly after the given one (by at least 93 day slots), in the same or the next year: the same day three months on when that month has it; otherwise, from a day after the 28th, the overflow (1 to 3 days) into the month after, four months on |
| Dates.FirstOfMonth | client/src/pages/Dashboard.tsx:155 | the first day of any month is a real calendar date |
| Quarters.GetQuarter | client/src/lib/utils.ts:8-14 | the result is one of Q1..Q4, and for a real month it is quarter (month - 1) / 3 + 1 |
| Quarters.QuarterDependsOnMonthOnly | client/src/lib/utils.ts:9 | two dates in the same calendar month share their quarter, whatever their year and day |
| Quarters.DashboardQuarterAgrees | client/src/pages/Dashboard.tsx:80-82 | the dashboard's `floor((getMonth() + 3) / 3)` names the same quarter as `getQuarter` for every real date |
| Quarters.QuarterLabels | client/src/pages/OKRs.tsx:75-86 | the loop that walks from the start in three-month steps while not after the end returns the distinct quarters of the visited dates, first seen first |
| Quarters.SamplesSpec | client/src/pages/OKRDetail.tsx:48-59 | the walk visits nothing exactly when the start is after the end, starts at the start date, and visits only real dates between start and end |
| Quarters.QuarterLabelsSpec | client/src/pages/OKRs.tsx:75-86 | the labels are distinct quarter names; there are none exactly when the start is after the end; otherwise the first is the start's quarter; a label appears exactly when some visited date lies in it |
| Quarters.QuarterLabelsSkipCoveredQuarters | client/src/pages/OKRs.tsx:83 | an OKR from 2024-03-31 to 2024-06-30, and one from 2024-01-15 to 2024-04-10, get only the Q1 badge, though both cover Q2 |
| ClientUsers.FindMemberSpec | client/src/pages/OKRDetail.tsx:109 | the lookup finds a user exactly when one has the id, and then the first such user in list order |
| OkrList.FilteredOkrsSpec | client/src/pages/OKRs.tsx:234-276 | the list shows exactly the fetched OKRs passing all eight tests, in order and never more; the reset filter shows them all; filtering again changes nothing |
| OkrList.DateRangeIsContainment | client/src/pages/OKRs.tsx:255-264 | the date range keeps OKRs lying inside it: a year-long OKR is dropped by a spring range it covers, while one inside the range stays |
| OkrList.QuarterFilterReadsStartOnly | client/src/pages/OKRs.tsx:251-253 | the quarter test reads the start date only: an OKR from January to September is not shown under Q3 |
| OkrList.StatusFilterHidesOutOfRange | client/src/pages/OKRs.tsx:247-249 | an OKR whose progress is outside 0..100 is shown under no schema status |
| OkrList.ActiveFiltersCountSpec | client/src/pages/OKRs.tsx:297-301 | at most nine filters are active, and none exactly when every value is "all" or empty, as after a reset |
| OkrList.SearchForAllIsNotCounted | client/src/pages/OKRs.tsx:238-241 | the search term "all" is not counted as active, yet it filters the list by title |
| OkrList.InitialsPerWord | client/src/pages/OKRs.tsx:65-73 | the initials of `a b` are those of `a` followed by those of `b` |
| OkrList.InitialsAlphanumeric | client/src/pages/OKRs.tsx:65-73 | initials consist of ASCII letters and digits only |
| OkrList.InitialsOfWord | client/src/pages/OKRs.tsx:69-70 | a name without spaces gives its leading ASCII letter, if any, followed by all its digits |
| OkrList.InitialsOfTwoNames | client/src/pages/OKRs.tsx:65-73 | a first and a last name made of letters give their two first letters, in their own case |
| OkrList.InitialsOfLetters | client/src/pages/OKRs.tsx:69-70 | a word made of letters gives its first letter |
| OkrList.InitialsKeepDigits | client/src/pages/OKRs.tsx:69-70 | digit runs are kept whole: "R2 D2" gives "R2D2" |
| OkrList.CreatorFilterAsWrittenHidesOwnOkrs | client/src/pages/OKRs.tsx:403 | as written, choosing a creator whose name is not their id hides every OKR they created |
| OkrList.CreatorFilterSelectsCreated | client/src/pages/OKRs.tsx:242-243 | with the id as the option's value, choosing a creator shows exactly the OKRs that user created |
| OkrDetail.DetailInitialsPerWord | client/src/pages/OKRDetail.tsx:40-46 | the detail initials of `a b` are those of `a` followed by those of `b` |
| OkrDetail.DetailInitialsOfWord | client/src/pages/OKRDetail.tsx:40-46 | a name without spaces gives its first character, upper-cased |
| OkrDetail.InitialsDifferBetweenPages | client/src/pages/OKRDetail.tsx:40-46 | the detail page upper-cases initials and drops digits, where the list keeps case and digits ("ann lee" is "AL" against "al"; "R2 D2" is "RD" against "R2D2") |
| OkrDetail.OwnerNameSpec | client/src/pages/OKRDetail.tsx:108-111 | an owner id no listed user carries shows as "Unknown User"; any other shows the name of the first user with that id |
| OkrDetail.DetailPercentageOfStoredKeyResult | client/src/pages/OKRDetail.tsx:264 | the percentage shown for a stored key result equals its stored progress, unclamped |
| OkrDetail.CanEditAgreesWithList | client/src/pages/OKRDetail.tsx:113-115 | the detail page's `canEdit` holds exactly when the list page (OKRs.tsx:537-538) shows its edit and delete controls, never before the OKR is loaded, and never for a user who neither created nor owns the OKR, whatever the role |
| Dashboard.FilterAgreesWithList | client/src/pages/Dashboard.tsx:76-93 | the dashboard keeps exactly the OKRs the list page keeps for the same category, department, quarter and dates |
| Dashboard.FilteredUsersSpec | client/src/pages/Dashboard.tsx:97-99 | the users panel shows exactly the users of the chosen department, or all of them for "all" |
| Dashboard.MonthsBetweenDates | client/src/pages/Dashboard.tsx:122-133 | with both dates, the months run from the start month to the end month, wrapping once past December, whatever quarter is chosen |
| Dashboard.MonthsWithoutDates | client/src/pages/Dashboard.tsx:136-147 | without both dates a quarter shows its three months, each filed by `getQuarter` under that quarter; with no quarter the chart shows all twelve in order |
| Dashboard.FilteredMonthsAreMonths | client/src/pages/Dashboard.tsx:119-148 | every month the chart shows is one of the twelve month names |
| Dashboard.MonthIndex | client/src/pages/Dashboard.tsx:151 | a month name maps to its position in the year, from 0 |
| Dashboard.ProgressSeriesSpec | client/src/pages/Dashboard.tsx:105-111 | one chart point per shown month, in the same order, each the average for its month; when every OKR's progress lies in lo..hi, so does every point |
| Dashboard.LaterOkrsLeaveMonthsEmpty | client/src/pages/Dashboard.tsx:150-163 | OKRs that all start in 2025 or later leave every month at 0 |
| Dashboard.MonthReadsItsFirstDay | client/src/pages/Dashboard.tsx:152-158 | an OKR of 2024 that starts after the 1st of a month and ends within that month counts for every month of the chart as no OKR, whatever its progress |
| Teams.EmployeeStatsSpec | client/src/pages/Teams.tsx:60-79 | one record per user, in order, with the user's fields unchanged; its count is the number of OKRs the user owns, its progress 0 without any and otherwise within the range of their progress |
| Teams.CreatorIsNotCounted | client/src/pages/Teams.tsx:62-64 | an OKR the user created but does not own leaves the user's record as it was |
| Teams.FilteredEmployeesSpec | client/src/pages/Teams.tsx:91-108 | the directory shows exactly the employees passing the search and the two filters, in order; no term and both filters at "all" show everyone |
| Teams.SearchIgnoresCase | client/src/pages/Teams.tsx:92-98 | a search term matches regardless of its letter case |
| Teams.DesignationsSpec | client/src/pages/Teams.tsx:114 | the designation filter offers each employee's designation exactly once and nothing else, the first employee's first |
| UserManagement.FilteredUsersSpec | client/src/pages/UserManagement.tsx:97-123 | the page lists exactly the users passing the search and the three filters, in order, with ids still distinct; the empty filter lists everyone |
| UserManagement.NameSearchMissesServerUsers | client/src/pages/UserManagement.tsx:100-102 | the search reads `fullName`, which server users lack, so a user cannot be found by their name |
| UserManagement.ToggleSpec | client/src/pages/UserManagement.tsx:261-271 | toggling flips exactly the id's membership, keeps the selection free of duplicates, and toggling an unselected id twice restores the selection |
| UserManagement.SelectAllSpec | client/src/pages/UserManagement.tsx:273-282 | select-all either clears the selection or selects exactly the shown users other than the signed-in one, each once |
| UserManagement.SelectAllComparesCountsOnly | client/src/pages/UserManagement.tsx:277 | with one user selected and a different single user shown, select-all clears the selection instead of selecting the shown user |
| UserManagement.RoleUpdatesForSpec | client/src/pages/UserManagement.tsx:127-135 | one role entry per selected id, in order, holding the user's current role, or "Employee" when the user is missing or has no role |
| UserManagement.SetUpdateRole | client/src/pages/UserManagement.tsx:284-290 | the entries keep their user ids, in order |
| UserManagement.SetUpdateRoleLookup | client/src/pages/UserManagement.tsx:284-290 | afterwards the entry read for that user carries the new role exactly when the user is selected (none otherwise), and every other user's entry is the one it was |
| UserManagement.SetUpdateRoleThenApply | client/src/pages/UserManagement.tsx:284-290 | picking a role for a selected user and then bulk-updating gives that user the picked role and every other user what the bulk update gave it before |
| UserManagement.SetRole | client/src/pages/UserManagement.tsx:174-176 | only the users with that id take the new role; the ids, the order and every other field are unchanged |
| UserManagement.ApplyRoleUpdatesSpec | client/src/pages/UserManagement.tsx:216-219 | a bulk update keeps the users, their order and every field but the role; a user takes the role of the first entry naming it and keeps its role when none does |
| UserManagement.WithoutIdsSpec | client/src/pages/UserManagement.tsx:240-242 | deleting keeps exactly the users whose id is not deleted, in order, with ids still distinct; deleting the same ids again changes nothing |
| UserManagement.UserManagementPage.constructor | client/src/pages/UserManagement.tsx:97-135 | the page starts with no users, the empty filter, and no selection or role entries |
| UserManagement.UserManagementPage.Load | client/src/pages/UserManagement.tsx:137-139 | fetched users (with distinct ids) replace the list; the filter and the selection are kept and the role entries are rebuilt from the new list |
| UserManagement.UserManagementPage.SetFilter | client/src/pages/UserManagement.tsx:97-125 | the filter changes and nothing else does |
| UserManagement.UserManagementPage.SelectUser | client/src/pages/UserManagement.tsx:261-271 | the signed-in user's id changes nothing; any other id is toggled and the role entries are rebuilt for the new selection |
| UserManagement.UserManagementPage.SelectAllUsers | client/src/pages/UserManagement.tsx:273-282 | the selection becomes the select-all result for the shown users, and the role entries follow it |
| UserManagement.UserManagementPage.UpdateIndividualRole | client/src/pages/UserManagement.tsx:284-290 | only the role entries for that user change |
| UserManagement.UserManagementPage.UpdateRole | client/src/pages/UserManagement.tsx:171-190 | on success only the edited user's role changes and the role entries are rebuilt; on failure nothing changes |
| UserManagement.UserManagementPage.DeleteUser | client/src/pages/UserManagement.tsx:193-197 | on success exactly the user with that id leaves the list; the selection is untouched (a deleted id stays selected); on failure nothing changes |
| UserManagement.UserManagementPage.BulkUpdateRoles | client/src/pages/UserManagement.tsx:213-221 | on success every user takes the role of its entry and the selection and entries are cleared; on failure nothing changes |
| UserManagement.UserManagementPage.BulkDelete | client/src/pages/UserManagement.tsx:237-244 | on success exactly the selected users leave the list and the selection and entries are cleared; on failure nothing changes |
| OkrForm.AfterSelectSpec | client/src/components/CreateOKRDialog.tsx:131-146 | selecting is refused exactly for an individual OKR that already has an owner; otherwise the user is appended |
| OkrForm.AfterRemoveSpec | client/src/components/CreateOKRDialog.tsx:148-155 | removing keeps exactly the selected users with another id, in order, and undoes the selection of a user who was not selected |
| OkrForm.AfterCategoryChangeSpec | client/src/components/CreateOKRDialog.tsx:157-170 | after a switch to "individual" at most one owner is left, the first one picked; any other switch keeps the selection |
| OkrForm.AvailableUsersSpec | client/src/components/CreateOKRDialog.tsx:172-174 | the picker offers exactly the users not yet selected, in list order; a user just selected is no longer offered |
| OkrForm.OwnerPicker.constructor | client/src/components/EditOKRDialog.tsx:128-136 | the picker starts from the given category, form category, owners and selection |
| OkrForm.OwnerPicker.Select | client/src/components/EditOKRDialog.tsx:163-175 | a refused selection changes nothing; otherwise the selection is the appended one and the form's owners are its ids; an individual OKR keeps at most one owner |
| OkrForm.OwnerPicker.Remove | client/src/components/EditOKRDialog.tsx:177-181 | the selection loses every user with that id and the form's owners are its ids |
| OkrForm.OwnerPicker.ChangeCategory | client/src/components/EditOKRDialog.tsx:183-195 | both categories take the new value; a switch to "individual" with several owners keeps the first one in both the selection and the owners; otherwise owners and selection are kept |
| OkrForm.FindAboveTarget | client/src/components/CreateOKRDialog.tsx:214-224 | the loop reports true exactly when some key result's current value exceeds its target |
| OkrForm.RunChecks | client/src/components/EditOKRDialog.tsx:203-236 | the checks as run return the first failure: more than one owner for an individual OKR, fewer than two for a team OKR, a start not before the end, a key result above target |
| OkrForm.FirstFailureSpec | client/src/components/CreateOKRDialog.tsx:190-224 | each message is reported exactly when its check fails and every earlier one passes; nothing is reported exactly when all checks pass |
| OkrForm.OwnerChecksAllowNoOwner | client/src/components/CreateOKRDialog.tsx:190-205 | an individual OKR with no selected owner passes the owner checks, and so does a category that is neither select value, for any count |
| CreateOkrDialog.DefaultsSpec | client/src/components/CreateOKRDialog.tsx:94-115 | the form starts with one key result at 0 of 100 (shown as 0 %) and the signed-in user as only owner; the picker starts from that user's record when the list has it, and otherwise stays empty while the form lists the user |
| CreateOkrDialog.SelectionAfterCreateSpec | client/src/components/CreateOKRDialog.tsx:232-242 | after a create the selection is the creator's record when the list has it, and empty otherwise |
| CreateOkrDialog.Submit | client/src/components/CreateOKRDialog.tsx:176-226 | the submit runs the title check, the shared checks and the signed-in test in order, and returns the outcome the specification function names |
| CreateOkrDialog.CreateOutcomeSpec | client/src/components/CreateOKRDialog.tsx:178-226 | a title in use in any case is refused before every other check; a create is sent exactly when the title is new, every shared check passes and a user is signed in, and carries the form unchanged with that user as creator |
| CreateOkrDialog.TitleCheckIgnoresCase | client/src/components/CreateOKRDialog.tsx:179-181 | two titles that differ only in letter case are both in use or both free |
| EditOkrDialog.DatePartSpec | client/src/components/EditOKRDialog.tsx:125-126 | the date input receives the text before the first "T": the day of a timestamp, or the whole string when it has none |
| EditOkrDialog.LoadSpec | client/src/components/EditOKRDialog.tsx:122-136 | loading selects exactly the listed users who own the OKR, in list order; an Individual OKR opens with its category locked and a Team OKR does not; owners and title are kept |
| EditOkrDialog.Open | client/src/components/EditOKRDialog.tsx:132-136 | the opened picker holds the lower-cased category and the loaded owners and selection |
| EditOkrDialog.Submit | client/src/components/EditOKRDialog.tsx:201-238 | the submit runs the shared checks in order and returns the outcome the specification function names |
| EditOkrDialog.EditSkipsTitleCheck | client/src/components/EditOKRDialog.tsx:201-238 | an edit is refused with the same message or sent exactly as a create with no titles in use would be; a title in use, which stops a create, never stops an edit |
| EditOkrDialog.EditLowercasesDepartment | client/src/components/EditOKRDialog.tsx:127 | as written, submitting the loaded form unchanged stores a department with an upper-case letter lower-cased, so the list filtered by that department no longer shows the OKR |
| EditOkrDialog.EditKeepsDepartment | client/src/components/EditOKRDialog.tsx:335 | with the department kept as stored, submitting the loaded form unchanged keeps department, category, title and dates, and every department filter shows the OKR exactly when it did before; key results stored with current progress come back unchanged |
| AuthMiddleware.RequireUser | server/routes/middleware/auth.js:29-62 | a request is admitted exactly when the header's second space-separated field is a non-empty token that verifies to the id of a stored user, and then carries that user; every refusal is a 401 |
| AuthMiddleware.RequireUserIgnoresScheme | server/routes/middleware/auth.js:39 | only the second field is read: `scheme token` is treated the same whatever the scheme |
| AuthMiddleware.RequireUserRefusesDoubleSpace | server/routes/middleware/auth.js:39-43 | a header with two spaces before the token has an empty second field and is refused with 401 |
| AuthMiddleware.TakeLine | server/routes/middleware/auth.js:10 | the part `.+` matches is the longest prefix without a line terminator |
| AuthMiddleware.MiddlewaresAgreeOnBearer | server/routes/middleware/auth.js:7-27 | for a well-formed `Bearer` header the lenient middleware attaches exactly the user the strict one admits |
| AuthMiddleware.MiddlewaresDifferOnScheme | server/routes/middleware/auth.js:10 | `Basic t` gives the strict middleware the token `t` but attaches no user in the lenient one |
| AuthMiddleware.MiddlewaresDifferOnSpaces | server/routes/middleware/auth.js:10 | `Bearer a b` is the token `a` for the strict middleware and `a b` for the lenient one |
| OkrRoutes.CreateRoute | server/routes/okr.js:10-19 | 401 without a user; for a signed-in user 201 exactly when the service stores the OKR, with the created OKR as body; otherwise 500 with nothing stored |
| OkrRoutes.ListRoute | server/routes/okr.js:22-31 | 200 with every stored OKR exactly when a user is admitted, otherwise 401 |
| OkrRoutes.GetRoute | server/routes/okr.js:34-47 | 401 without a user, 404 for an unknown id, otherwise 200 with the OKR |
| OkrRoutes.UpdateRoute | server/routes/okr.js:50-64 | 401 without a user; 404 for an unknown id; 500 for dates out of order or a duplicate title; otherwise 200 with the patched OKR, whoever the user is, including one the client shows no edit control to |
| OkrRoutes.DeleteRoute | server/routes/okr.js:67-80 | 401 without a user; 404 for an unknown id; otherwise 200 and the OKR removed, whoever the user is, including one the client shows no delete control to |
| UserRoutes.RequireAdmin | server/routes/userManagement.js:10-15 | a request passes exactly when it was admitted and the user is an Admin; an admitted non-Admin gets 403 and an earlier refusal stands |
| UserRoutes.ListUsersRoute | server/routes/userManagement.js:18-26 | any signed-in user, Admin or not, gets 200 with a body holding, for every stored user id, exactly `ToJson` of that user's document, so none carries a password; any refusal is 401 |
| UserRoutes.UpdateRoleRoute | server/routes/userManagement.js:29-47 | authentication, then the Admin check, then 400 for a role outside the enumeration before any change, 404 for an unknown id, otherwise 200 with only that user's role changed |
| UserRoutes.DeleteUserRoute | server/routes/userManagement.js:50-63 | after both gates the deletion cascade runs; 404 when the user does not exist, otherwise 200 |
| AuthRoutes.LoginRoute | server/routes/auth.js:27-59 | 400 for a missing e-mail or password before any lookup; 400 "Email or password is incorrect" for an unknown e-mail or a wrong password; otherwise a token for the user, whose last login is recorded |
| AuthRoutes.RegisterRoute | server/routes/auth.js:61-128 | 400 for a missing field, then for a role or a department outside the enumerations, 405 for an e-mail already registered, all with no user created; otherwise 201 exactly when the hash is non-empty and passes `isPasswordHash`, and no other user holds the new token, with a session for the new user |
| AuthRoutes.LogoutRoute | server/routes/auth.js:130-146 | 401 without a user; otherwise 200 and the fresh token stored exactly when the stored user still passes the schema's validators (the password-hash check included) and no other user holds the token, else 500 with nothing changed |
| AuthRoutes.UpdateProfileRoute | server/routes/auth.js:176-208 | 401 without a user; the submitted fields are applied to the signed-in user with no validation, any role included; 500 when the new e-mail belongs to another user |
| AuthRoutes.ChangePasswordRoute | server/routes/auth.js:258-287 | 400 for a missing field, 404 for an unknown e-mail, 400 with nothing changed for a wrong current password, otherwise the account the e-mail names (not necessarily the caller's) gets the new hash with 200 when the account with that hash passes the schema's validators (the hash check included), and 500 with nothing changed when it does not |

## Left out

- Network and storage in the browser are not modelled: the axios calls, the
  local-storage token and user, and `handleTokenExpiration`. Fetched data
  and the stored user id are parameters.
- The client's bulk calls (`bulkUpdateUserRoles`, `bulkDeleteUsers`) run
  requests concurrently. Only their all-or-nothing outcome is modelled, as
  the `succeeded` flag of the page's bulk methods.
- Password hashing and checking, the `isPasswordHash` validator
  (`server/utils/password.js` is not part of this model), JWT signing and
  verifying, `randomUUID` and `Date.now()` are foreign calls. They are function or value
  parameters.
- Mongo internals are map operations on `Database.Db`: `deleteMany`,
  `updateMany` with `$pull`, `findByIdAndUpdate`, and the unique indexes.
  A storage failure other than a validation or duplicate-key error is not
  modelled.
- Express wiring, sessions, multer uploads and static serving are not
  modelled. This leaves out:
  - the `/update-profile-picture` route, whose only logic is the upload;
  - the `/api/auth/logout` alias of `/logout`;
  - `/me`, which returns the serialised user.
- Rendering, toasts, dialogs and the `setTimeout` in `resetFilters` are not
  modelled.
- `client/src/data/departments.json` is not part of this model. Department
  names are arbitrary strings on the client.
- ProfileMenu's `getInitials` is the same code as the list page's
  `getUserInitials`, modelled once as `OkrList.Initials`.
- Floating point is not modelled. Values are exact reals with
  `Math.round(x) = floor(x + 1/2)`. A zero target is excluded by a
  precondition, so the division that gives Infinity or NaN in the source is
  not modelled.
- Date strings, time zones and times of day are not modelled. Dates are
  (year, month, day) triples, and the edit dialog's `split("T")` is modelled
  on strings only.
- `toLowerCase`/`toUpperCase` are modelled on ASCII letters only.
- The OKR service's `list` is modelled only through `OkrRoutes.ListRoute`,
  which returns the whole map. Likewise `UserService.list`, a bare
  `User.find()`, is inlined in `UserRoutes.ListUsersRoute` as the whole
  `db.users` map. `UserService.authenticateWithToken` and `setPassword`
  have no callers (server/server.js:48 installs the middleware's own
  `authenticateWithToken`), so they are not modelled.
- `UserRoutes.ListUsersRoute` returns the serialised users as a map keyed
  by id, not as an array, so the order of the users in the response is not
  modelled.
- Keys of a request body that the schema does not declare are not
  modelled.
- A field absent from an update body leaves the stored field alone in
  `OkrService.ApplyPatch`, `UserService.ApplyUserPatch` and so in
  `UserService.Update` and `AuthRoutes.UpdateProfileRoute`. This rests on
  Mongoose dropping keys whose value is `undefined` from an update, as
  Mongoose 6 and later do; an older Mongoose that writes `null` for them is
  not modelled.
- The client dialogs submit only when both dates are filled in
  (`OkrForm.Submittable`). The form's required-field rules, which block an
  empty date, are not modelled beyond that. Nor are the key-result field
  rules (client/src/components/CreateOKRDialog.tsx:518-548,
  client/src/components/EditOKRDialog.tsx:462-478: current value at least 0
  and at most the target, target at least 0), which stop the form before
  `onSubmit` runs; with them the "current value greater than target" refusal
  of `OkrForm.FirstFailure` is unreachable in the UI.
- Teams.DesignationsSpec: states distinctness, membership and that the first
  employee's designation comes first, not the whole first-seen order that
  `[...new Set(...)]` gives (and `Dedup` computes), because that order is
  only displayed.

## Findings

| source | as written | input that shows it | evidently intended | confidence | as-written member | corrected member |
|---|---|---|---|---|---|---|
| client/src/pages/OKRs.tsx:403 | the creator options carry the user's name as their value, while the test at line 243 compares the value with `createdBy`, a user id | users and OKRs where Ann (id "u1", name "Ann") created an OKR; choosing "Ann" as creator hides it | the option's value is the user's id, so choosing a creator shows the OKRs they created | high, not executed | OkrList.CreatorFilterAsWrittenHidesOwnOkrs | OkrList.CreatorFilterSelectsCreated |
| client/src/components/EditOKRDialog.tsx:127 | loading lower-cases the department, the select offers lower-cased values (line 335), and `updateOKR` sends the form as it is (line 238), so an unchanged edit stores "qa" for "QA" | an OKR of department "QA" opened in the edit dialog and saved without changes is stored with department "qa" and disappears from the list filtered by "QA" | the department is kept as stored, as the create dialog and the list filter (line 236) use the raw department names | high, not executed | EditOkrDialog.EditLowercasesDepartment | EditOkrDialog.EditKeepsDepartment |
