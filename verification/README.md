# Upsight backend: a Dafny model of its decision logic

Upsight's backend is a Django REST service with three parts:

- a university **board** of News, Notices, Translations, Information pages and the documents attached to Information pages;
- a **management** app for students, entrances, classes and their timetables, payments, staff accounts and uploads;
- a public **main site** with language-selected content.

This project models the pure rules inside those parts as immutable datatypes and total functions. Tables are sequences, a principal is a list of group names plus an optional manager link, and most endpoints' outcome is `Ok | Forbidden | NotFound | BadRequest`. Login has its own result (logged in, invalid credentials, no linked user), and the two views that fail as written carry a server-error alternative.

The modules follow the program's structure:

| module | file | what it models |
|---|---|---|
| `Wrappers` | wrappers.dfy | `Option` and the endpoint `Outcome` |
| `Text` | text.dfy | Python `x or y` on strings, `int()` parsing, decimal printing, `strip`, `join`, ASCII `lower` |
| `Seqs`, `Sorting` | seqs.dfy, sorting.dfy | filters, sums, counts, and a stable descending insertion sort (Python's `list.sort(reverse=True)`) |
| `Bilingual` | bilingual.dfy | the two conventions for Korean/Uzbek pairs: `ko or uz` fallback, and strict selection by language |
| `Access` | access.dfy | staff groups, `get_user_university`, `filter_by_permissions` |
| `BoardModels` | board_models.dfy | the ownership schema, cascading deletes, `__str__` |
| `BoardSerializers` | board_serializers.dfy | derived read fields, the field layer and `validate` of the create/update serializers |
| `BoardViews` | board_views.dfy | the list, detail, create, update and delete endpoints for the four content kinds and for documents |
| `BoardProperties` | board_properties.dfy | how the board endpoints relate to each other and keep the board well formed |
| `ManagementModels` | management_models.dfy | getters, `__str__`, choice labels, weekday tables, registration uniqueness |
| `Accounts` | accounts.dfy | account provisioning on first `save()`, employee login, the token role claim, logout |
| `Finance` | finance.dfy | the merged, date-sorted payment list with its totals and counts |
| `ManagementSerializers` | management_serializers.dfy | durations, timetable validation, representative names, class and entrance sums |
| `ManagementViews` | management_views.dfy | the student list's access levels, and class detail with its month filter |
| `Validators` | validators.dfy | the PDF extension check and the size ceilings |
| `ManagementAdmin` | management_admin.dfy | the short day list and the admin duration column |
| `MainSite` | main_site.dfy | the main site's language getters and `__str__` fallbacks |

Amounts are exact integers (cents), and dates are integer day numbers. Password hashing, the password check, token validity and the current time are parameters of the functions that use them.

## Model

| member | source | states |
|---|---|---|
| Bilingual.Resolve | board/serializers.py:18-22 | `ko or uz`: the Korean value when it is non-empty, otherwise the Uzbek one; empty only when both are empty |
| Bilingual.ResolveNullable | main/models.py:32-33 | `ko or uz` on nullable columns: `None` exactly when the Korean side is falsy and the Uzbek one is null |
| Bilingual.Select | main/models.py:26-30 | `ko if language == "ko" else uz`: the Korean value exactly for "ko", the Uzbek one for every other language |
| Bilingual.ContextLanguage | main/serializers.py:16-22 | a serializer without a language in its context reads "ko" |
| Bilingual.ValidatedPairResolves | board/serializers.py:129-135 | a pair that passed write validation resolves to a non-empty value |
| Bilingual.ConventionsAgree | main/serializers.py:16-19 | with a non-empty Korean value, strict selection of "ko" equals the `ko or uz` fallback |
| Bilingual.ConventionsDiffer | main/serializers.py:16-19 | with an empty Korean value, strict selection gives "" while the fallback gives the Uzbek value |
| Access.UserUniversity | board/views.py:22-30 | a university exactly for a member of "university_staff" with a manager link, and it is that manager's university |
| Access.FilterByPermissions | board/views.py:33-42 | everything for "upsight_staff" (checked first); otherwise exactly the caller university's rows; nothing for a caller without a linked university; never a row that was not there |
| Access.FilterByPermissionsSorted | board/views.py:59-60 | a scoped list keeps the order of the rows it is taken from |
| BoardModels.FindContent | board/views.py:91 | `get(id=...)` finds a row with that key, and finds none exactly when no row has it |
| BoardModels.FindDocument | board/views.py:989 | the same lookup for documents |
| BoardModels.NextContentId | board/views.py:142-144 | a new row gets a key no existing row has |
| BoardModels.NextDocumentId | board/views.py:1045-1047 | a new document gets a key no existing document has |
| BoardModels.DocumentUniversity | board/models.py:57 | a document's university is its Information row's university, and it exists exactly when that row exists |
| BoardModels.DeleteInformationCascade | board/models.py:57 | deleting an Information row removes it and every document attached to it, and keeps every other row and document |
| BoardModels.DeleteInformationKeepsAttached | board/models.py:57 | after the cascade every remaining document is still attached to an existing Information row |
| BoardModels.DeleteUniversityCascade | board/models.py:12 | deleting a University removes its News, Notices, Translations and Information, and the documents under that Information; every row and document of another university stays |
| BoardModels.DeleteUniversityKeepsWellFormed | board/models.py:12-57 | the university cascade keeps the board well formed: every row's university exists and every document's Information exists |
| BoardModels.FilterKeepsOwned | board/models.py:12 | removing a university's rows leaves a table owned by the remaining universities |
| BoardModels.ContentStr | board/models.py:14-15 | `__str__` is the Uzbek title, followed by " Translation" for a Translation only |
| BoardModels.DocumentStr | board/models.py:62-63 | a document's `__str__` is the text "Document for " followed by exactly its Information's Uzbek title |
| BoardModels.DocumentStrReadsBack | board/models.py:62-63 | the Information's Uzbek title reads back from a document's `__str__` |
| BoardModels.ContentStrIgnoresKorean | board/models.py:14-15 | `__str__` does not depend on the Korean title at all |
| BoardSerializers.Title | board/serializers.py:18-19 | the resolved title is `title_ko` when non-empty, otherwise `title_uz`; empty only when both are empty |
| BoardSerializers.Body | board/serializers.py:21-22 | the resolved content follows the same rule |
| BoardSerializers.DocumentTitle | board/serializers.py:84-85 | `document_ko or document_uz`: the Korean title when non-empty, otherwise the Uzbek one; empty only when both are |
| BoardSerializers.DocumentCount | board/serializers.py:116-117 | `document_count` is the number of documents attached to the Information row |
| BoardSerializers.DocumentCountOnlyOwn | board/serializers.py:116-117 | documents of other Information rows are not counted |
| BoardSerializers.DocumentCountGrows | board/serializers.py:116-117 | attaching a document raises the count by exactly one |
| BoardSerializers.ValidateContent | board/serializers.py:129-135 | accepts exactly when some title and some content are given, and returns the data unchanged; the title error comes before the content error |
| BoardSerializers.ValidateDocument | board/serializers.py:196-200 | accepts exactly when some document title is given |
| BoardSerializers.ContentIsValid | board/serializers.py:121-135 | `is_valid()` for content: the field layer, then `validate` |
| BoardSerializers.DocumentIsValid | board/serializers.py:189-200 | `is_valid()` for documents: a referenced Information row must exist, some title must be given, and the file cannot be blank (and is required in a full write) |
| BoardSerializers.FullWriteValidateRedundant | board/serializers.py:129-135 | in a full write the field layer already implies what `validate` checks |
| BoardSerializers.PatchWithoutTitleRejected | board/views.py:197-201 | a PATCH that sends no title is rejected with the title error, even when the stored row has titles |
| BoardSerializers.ApplyContent | board/views.py:197-204 | a saved write replaces exactly the supplied titles, contents, university and image, keeps the others, and keeps key, kind and date |
| BoardSerializers.ApplyDocument | board/views.py:1092-1099 | a saved document write replaces exactly the supplied Information, titles and file, keeps the others, and keeps the key |
| BoardSerializers.WrittenContentResolves | board/serializers.py:129-135 | a row written through a valid serializer has a non-empty resolved title and content |
| BoardViews.WithTable | board/views.py:59 | replacing one kind's table leaves the other tables, the documents and the universities as they were |
| BoardViews.Ordered | board/views.py:59 | `order_by('-date')` keeps the rows and orders them by date, newest first; Translation has no date and keeps table order |
| BoardViews.OrderedMembers | board/views.py:59 | ordering neither adds nor drops a row |
| BoardViews.ScopedListComplete | board/views.py:38-40 | a scoped list contains every row of the caller's university |
| BoardViews.Locate | board/views.py:84-100 | Forbidden for a non-staff caller, before any lookup; then NotFound for a missing key; then Forbidden exactly when a "university_staff" caller does not own the row |
| BoardViews.ContentList | board/views.py:48-69 | Forbidden exactly for non-staff; all rows for "upsight_staff"; otherwise exactly the caller university's rows; newest first in both cases (Translation keeps table order) |
| BoardViews.ContentDetail | board/views.py:80-103 | Forbidden for non-staff; NotFound for a missing key; Forbidden for another university's row under "university_staff"; otherwise the row with the requested key |
| BoardViews.ForceUniversity | board/views.py:133-140 | a "university_staff" caller's data is moved to their own university, a bad request when they have none; other callers' data is unchanged |
| BoardViews.ContentCreate | board/views.py:119-158 | Forbidden for non-staff; BadRequest for "university_staff" without a linked university; success exactly when the data (with that university forced) is valid; the new row stores the submitted titles, contents and image, the creation date, under a fresh key |
| BoardViews.ReplaceRow | board/views.py:204 | the row with the written row's key is replaced, and the rest of the table is unchanged |
| BoardViews.KeepUniversity | board/views.py:193-195 | an update by "university_staff" is pinned to the row's current university; nothing else in the data changes |
| BoardViews.ContentUpdate | board/views.py:169-218 | the lookup-then-scope refusals come first; then success exactly when the data (with the university pinned for "university_staff") is valid; the stored row is the old row with the supplied fields replaced, in place, and nothing else changes |
| BoardViews.ContentDelete | board/views.py:234-261 | the lookup-then-scope refusals come first; then the row is gone and the others stay; deleting Information also deletes its documents and keeps every other document |
| BoardViews.DeleteRow | board/views.py:256 | `delete()` removes the row, keeps every other row of its table and every other table, and for Information removes exactly the attached documents |
| BoardViews.DocumentList | board/views.py:940-968 | Forbidden for non-staff; checks "university_staff" first, so such a caller sees only documents of their university, even when also in "upsight_staff" |
| BoardViews.LocateDocument | board/views.py:982-997 | Forbidden for non-staff; NotFound for a missing key; Forbidden exactly when a "university_staff" caller does not own the document's Information row |
| BoardViews.DocumentDetail | board/views.py:979-1000 | Forbidden for non-staff; NotFound for a missing key; Forbidden for another university's document under "university_staff"; otherwise the document |
| BoardViews.DocumentCreate | board/views.py:1016-1061 | "university_staff" must name an existing Information row (BadRequest otherwise) of their university (Forbidden otherwise); success exactly when that holds and the data is valid; the document stores the submitted Information, titles and file under a fresh key |
| BoardViews.ReplaceDocument | board/views.py:1099 | the document with the written key is replaced, and the rest is unchanged |
| BoardViews.DocumentUpdate | board/views.py:1072-1113 | the lookup-then-scope refusals come first; then success exactly when the unchanged request data is valid; the stored document is the old one with the supplied fields replaced, so `information` may move it to any existing row |
| BoardViews.DocumentDelete | board/views.py:1129-1154 | the lookup-then-scope refusals come first; then the document is gone and every other document stays |
| BoardProperties.FindUnique | board/views.py:91 | with unique keys, lookup by a row's key finds that row |
| BoardProperties.FindAppend | board/views.py:142-144 | appending a row does not change the lookup of any other key |
| BoardProperties.FindReplace | board/views.py:203-204 | replacing a row changes the lookup of its key only |
| BoardProperties.ListDetailAgree | board/views.py:33-42 | for a caller in at most one staff group, a row is in the list exactly when its detail succeeds |
| BoardProperties.DualRoleListDetailMismatch | board/views.py:35-36 | a caller in both groups lists another university's row but is refused its detail |
| BoardProperties.DualRoleDocumentListScoped | board/views.py:953-958 | the same caller's document list is scoped while their Information list is not |
| BoardProperties.CreateThenDetail | board/views.py:119-153 | a caller can read back what they created by its new key |
| BoardProperties.CreateKeepsWellFormed | board/views.py:119-153 | content creation keeps the board well formed |
| BoardProperties.UpdateKeepsWellFormed | board/views.py:169-213 | content update keeps the board well formed |
| BoardProperties.UpdateTouchesOnlyRow | board/views.py:169-213 | content update changes the addressed row only |
| BoardProperties.DeleteKeepsWellFormed | board/views.py:234-261 | content delete keeps the board well formed; documents go with their Information |
| BoardProperties.DocumentCreateKeepsWellFormed | board/views.py:1016-1056 | document creation keeps the board well formed |
| BoardProperties.DocumentUpdateKeepsWellFormed | board/views.py:1072-1108 | document update keeps the board well formed |
| BoardProperties.DocumentCreateThenDetail | board/views.py:1016-1056 | a caller can read back the document they created |
| BoardProperties.DocumentDeleteKeepsWellFormed | board/views.py:1129-1149 | document delete keeps the board well formed |
| BoardProperties.CreatedImageShown | board/serializers.py:24-25 | a created row reports an image exactly when a non-empty image was uploaded |
| BoardProperties.UpdatedImageShown | board/serializers.py:24-25 | an update without an image keeps whether the row reports one; a non-empty upload makes it report one |
| BoardProperties.CreatedDocumentHasFile | board/serializers.py:87-88 | every created document reports a file |
| BoardProperties.UpdatedDocumentKeepsFile | board/serializers.py:87-88 | an update cannot make a document stop reporting its file |
| BoardProperties.DocumentUpdateEscapesScope | board/views.py:1092-1096 | a manager of university 1 can PATCH their document onto university 2's Information, after which their own detail request is refused |
| Sorting.SortDesc | management/views.py:626 | the result is a permutation of the input, ordered non-increasing by the key |
| Sorting.SortDescStable | management/views.py:626 | the sort is stable: the records of any one key keep their input order |
| Sorting.SortDescSum | management/views.py:626 | sorting keeps every sum over the list |
| Sorting.SortDescCount | management/views.py:626 | sorting keeps every count over the list |
| Sorting.FilterSorted | board/views.py:59-60 | filtering a list ordered newest first keeps it ordered |
| ManagementModels.StudentName | management/models.py:91-92 | the Korean name exactly for "ko", the Uzbek name otherwise |
| ManagementModels.GuardianName | management/models.py:94-95 | the same selection for the guardian name |
| ManagementModels.DocumentName | management/models.py:122-123 | the same selection for a document name |
| ManagementModels.StudentNameNoFallback | management/models.py:91-92 | under "ko" an empty Korean name is returned as it is |
| ManagementModels.NameWithId | management/models.py:227-228 | `"{ko or uz} ({id})"` |
| ManagementModels.StudentStr | management/models.py:97-98 | a student's `__str__` is the resolved name (`name_ko or name_uz`), then " (", the student id and ")" |
| ManagementModels.SlashPair | management/admin.py:137-138 | `"{ko} / {uz}"` |
| ManagementModels.SlashPairInjective | management/admin.py:137-138 | with the Korean length known, both names can be read back from the pair |
| ManagementModels.UniversityStr | management/models.py:44-45 | a university's `__str__` is its Korean name, " / ", then its Uzbek name |
| ManagementModels.UniversityStrInjective | management/models.py:44-45 | with the Korean name's length known, both names read back from a university's `__str__` |
| ManagementModels.Display | management/models.py:265-290 | `get_FOO_display()`: the label of a known value, the value itself otherwise |
| ManagementModels.EnteranceInfo | management/views.py:595-598 | the intake year, " - ", the kind's label, " (", the order's label, ")", each label the raw value when unknown |
| ManagementModels.EnteranceInfoReadsBack | management/views.py:595-598 | the summary's first word reads back as the intake year |
| ManagementModels.ClassInfo | management/admin.py:343-346 | "Group ", the group number or "None", " - ", the level's label, a space, then the lecture's label |
| ManagementModels.ClassInfoReadsBack | management/admin.py:343-346 | the group number reads back from the summary, and a missing group reads "None" |
| ManagementModels.WeekdayTablesAgree | management/models.py:446-495 | the bilingual, Korean and Uzbek day tables have the same seven keys, and each bilingual label is the Korean label, " / ", then the Uzbek label |
| ManagementModels.DayLabelAgrees | management/models.py:446-495 | the same agreement for one weekday key |
| ManagementModels.MapDays | management/models.py:466-470 | elementwise mapping: same length and order, and unknown keys pass through |
| ManagementModels.DaysDisplay | management/models.py:466-470 | `get_days_display` maps each day to its bilingual label, passing unknown keys through |
| ManagementModels.DaysDisplayKo | management/models.py:471-483 | `get_days_display_ko` maps to Korean labels |
| ManagementModels.DaysDisplayUz | management/models.py:484-495 | `get_days_display_uz` maps to Uzbek labels |
| ManagementModels.DaysDisplayCombines | management/models.py:466-495 | for weekday keys, each bilingual display is the Korean display, " / ", then the Uzbek display |
| ManagementModels.MapDaysConcat | management/models.py:466-470 | the mapping commutes with concatenation |
| ManagementModels.RegisterForEnterance | management/models.py:334 | a second registration for the same entrance and student is refused; otherwise it is appended and uniqueness is kept |
| ManagementModels.RegisterForClass | management/models.py:518 | the same for a student and a class |
| Accounts.GroupOf | management/models.py:217-220 | employees join "upsight_staff", university managers "university_staff", organ managers "organ_staff" |
| Accounts.Username | management/models.py:616-617 | the user name is the employee id, or the manager number in decimal, which reads back as that number |
| Accounts.StoredPassword | management/models.py:201-204 | on insert the password is hashed unless it is empty or already starts with "pbkdf2_" |
| Accounts.StoredPasswordIdempotent | management/models.py:203 | with a hasher whose output has the prefix, a stored password is never hashed twice |
| Accounts.SaveNew | management/models.py:197-222 | a login clash raises with nothing written; a user-name clash raises after the account row is written, unlinked; otherwise the account and exactly one new linked user are written |
| Accounts.NewUser | management/models.py:208-215 | the user gets the next key, the user name, `name_ko or name_uz`, the stored password, the kind's group, and the active and staff flags |
| Accounts.SaveExisting | management/models.py:183-206 | saving an existing account raises and writes nothing when its login name now clashes with another row of its kind; otherwise it writes the row as given and creates no user |
| Accounts.SaveExistingKeepsUniqueLogins | management/models.py:183 | saving an existing account keeps login names unique within each kind |
| Accounts.SaveNewKeepsUniqueLogins | management/models.py:589 | a first save keeps login names unique within each kind |
| Accounts.SaveNewCreatesOneUser | management/models.py:605-629 | exactly one user per successful first save, none otherwise |
| Accounts.FindEmployee | management/serializers.py:102 | finds an employee row with the id exactly when one exists |
| Accounts.ValidateLogin | management/serializers.py:91-108 | both fields are trimmed of surrounding whitespace; succeeds exactly when both trimmed values are non-empty, an employee with the trimmed id exists and the trimmed password checks against its stored one |
| Accounts.ValidateLoginTrims | management/serializers.py:91-93 | padding either field with whitespace does not change the outcome |
| Accounts.BlankPasswordRejected | management/serializers.py:93 | a password made only of whitespace is blank and never logs in |
| Accounts.RoleClaim | management/views.py:42-44 | the name of the user's first group in group-key order (an unordered `groups` queryset is read by primary key), or "user" when there is none |
| Accounts.EmployeeLogin | management/views.py:37-79 | invalid credentials exactly when validation fails; logged in exactly when the employee's linked user exists, with the employee's stored (trimmed) id and that user's role; no linked user otherwise |
| Accounts.ProvisionThenLogin | management/models.py:197-222 | a freshly provisioned employee whose id and password carry no surrounding whitespace logs in with that password and the role "upsight_staff" |
| Accounts.Logout | management/views.py:82-94 | without a refresh token it succeeds and changes nothing; a valid, not yet blacklisted token is blacklisted; any other token is a bad request |
| Accounts.LogoutTwiceRejected | management/views.py:88-94 | presenting the same refresh token a second time is a bad request |
| Finance.PaymentTypeName | management/views.py:590 | "entrance" and "class" tell the two kinds apart |
| Finance.RecordId | management/views.py:586 | the record id starts with its kind's prefix |
| Finance.ParseRecordId | management/views.py:607 | reading a record id back yields a kind whose prefix it starts with |
| Finance.RecordIdRoundTrip | management/views.py:586-607 | a record id reads back as the kind and original id it was built from |
| Finance.RecordIdInjective | management/views.py:586-607 | no two payments share a record id |
| Finance.PaymentMonthDisplay | management/serializers.py:44-45 | `"Month {m}"`, from which the month reads back |
| Finance.FromEntrance | management/views.py:584-602 | an entrance record carries the payment's fields, the student's Korean and Uzbek names, the university and entrance info, and null class fields |
| Finance.FromClass | management/views.py:605-623 | a class record carries the payment's fields, the student's Korean and Uzbek names, the month, its display and the class info, and null entrance fields |
| Finance.RecordStudentName | management/serializers.py:696-697 | `student_name_ko or student_name_uz`, empty only when both are |
| Finance.Merge | management/views.py:581-623 | the entrance records followed by the class records, each in table order |
| Finance.PaymentsData | management/views.py:626 | the merged records, newest first |
| Finance.FinancePaymentsList | management/views.py:559-655 | Forbidden exactly for non-upsight staff; otherwise the sorted list, `total_count` equal to both table sizes together, each kind's total equal to its table's sum, the grand total equal to their sum, and the kind counts |
| Finance.FinancePaymentsListAsWritten | management/views.py:605-623 | the view as written: an upsight_staff request meets a server error exactly when a class payment exists, because an attribute it reads is not on ClassPayment; otherwise the intended outcome |
| Finance.FinanceAsWrittenFails | management/views.py:617 | "payment_month" names nothing on ClassPayment, so any class payment turns the intended report into a server error |
| Finance.CorrectedPaymentReadsResolve | management/views.py:605-623 | with `payment_month` a column of ClassPayment, every attribute the view reads resolves |
| Finance.MergeKinds | management/views.py:590-611 | the entrance part of the merge holds only entrance records, and the class part only class records |
| Finance.KindTotal | management/views.py:633-640 | a kind's total over the sorted list equals its total over the merge |
| Finance.TotalsAgree | management/views.py:632-640 | the grand total equals the sum of both tables, and each kind's total over the sorted list equals its own table's sum |
| Finance.CountsAgree | management/views.py:650-651 | each kind's count over the sorted list is the size of its table |
| Finance.RecordsConsistent | management/views.py:584-623 | every record has the field layout of its own kind |
| Finance.SameDateOrder | management/views.py:626 | among records of one date, the entrance records come first, each kind in table order |
| ManagementSerializers.DurationParts | management/serializers.py:258-262 | `60*h + m` is the minute difference, with `0 <= m < 60` (Python's floor division) |
| ManagementSerializers.DurationPartsUnique | management/serializers.py:258-262 | these hours and minutes are the only split of the difference with minutes in 0..59 |
| ManagementSerializers.HoursMinutes | management/serializers.py:263 | the hours, "h ", the minutes, then "m" |
| ManagementSerializers.HoursMinutesReadsBack | management/serializers.py:263 | hours and minutes read back from the rendered text |
| ManagementSerializers.Duration | management/serializers.py:255-264 | "0h 0m" unless both times are set, otherwise the hours and minutes of the difference |
| ManagementSerializers.DurationReadsBack | management/serializers.py:255-264 | the rendered duration of two set times reads back as the hours and minutes between them |
| ManagementSerializers.FirstInvalidDay | management/serializers.py:375-381 | the first day that is not a weekday key, and none exactly when all are |
| ManagementSerializers.ValidateTimetable | management/serializers.py:363-382 | rejects an end not after the start first, then a non-list `days`, then the first unknown day (every day before it is a weekday); accepts exactly otherwise, including absent `days` |
| ManagementSerializers.AcceptedDurationNonNegative | management/serializers.py:363-382 | an accepted timetable has a non-negative duration |
| ManagementSerializers.SecondsOnlyDuration | management/serializers.py:255-264 | 10:00:00 to 10:00:30 is accepted and lasts "0h 0m": seconds count for the order check only |
| ManagementSerializers.AcceptedDaysDisplayLabels | management/models.py:466-470 | every day of an accepted list displays as its bilingual label |
| ManagementSerializers.RepresentativeName | management/serializers.py:418-421 | `"{ko or ''} / {uz or ''}"` with spaces and slashes stripped from both ends |
| ManagementSerializers.RepresentativeNameEmpty | management/serializers.py:418-421 | with neither name the result is "" |
| ManagementSerializers.RepresentativeNameBoth | management/serializers.py:580-583 | two names that do not begin or end with a space or slash are kept whole around " / " |
| ManagementSerializers.RepresentativeNameUzOnly | management/serializers.py:418-421 | with only the Uzbek name the result is that name |
| ManagementSerializers.ActiveStudents | management/serializers.py:342-344 | at most the total, and equal to it exactly when every registration is active |
| ManagementSerializers.TotalStudentsSplit | management/serializers.py:338-344 | the total is the active registrations plus the registrations in any other state |
| ManagementSerializers.ListedPayments | management/serializers.py:320-329 | all the class's payments without a filter; exactly those of the filtered month with one |
| ManagementSerializers.TotalPayments | management/serializers.py:346-355 | the sum over all payments, or over those of the filtered month |
| ManagementSerializers.TotalMatchesList | management/serializers.py:320-355 | the total shown equals the sum of the payments listed beside it |
| ManagementSerializers.TotalPaymentsSplit | management/serializers.py:346-355 | the filtered total and the other months' total add up to the unfiltered total |
| ManagementSerializers.StateDisplay | management/serializers.py:486 | the state's label when known, the stored integer itself (not its text) otherwise |
| ManagementSerializers.StateDisplayInjective | management/models.py:308-312 | different states never display alike |
| ManagementSerializers.StudentPaymentAmount | management/serializers.py:479-483 | the sum of the payments made by this student for this entrance |
| ManagementSerializers.EntranceStudents | management/serializers.py:475-491 | one entry per registration, in order, each with that student's amount for this entrance, the registration's state display (label or raw number), date, bonus and recommendation |
| ManagementSerializers.OtherPaymentIgnored | management/serializers.py:479-483 | a payment by another student or for another entrance does not change an entry's amount |
| ManagementSerializers.OwnPaymentCounted | management/serializers.py:479-483 | the student's own payment for this entrance raises the amount by exactly its amount |
| ManagementSerializers.StudentDisplayName | management/serializers.py:185-186 | `name_ko or name_uz`, which is the model getter's Korean or Uzbek choice |
| ManagementSerializers.GuardianDisplayName | management/serializers.py:188-189 | `guardian_name_ko or guardian_name_uz` |
| ManagementViews.StudentsList | management/views.py:123-143 | every student and "full" for upsight staff; only the first student and "limited" otherwise; `total_count` is the page length |
| ManagementViews.LimitedIsPrefix | management/views.py:127-130 | the limited page is the start of the full page |
| ManagementViews.MonthFilter | management/views.py:186-199 | no filter when absent or empty; the parsed month when it is an integer of at least 1; BadRequest otherwise |
| ManagementViews.MonthFilterAccepts | management/views.py:189-190 | every positive month written in decimal is accepted as that month |
| ManagementViews.MonthFilterRejectsNonPositive | management/views.py:190-194 | month 0 and negative months are rejected |
| ManagementViews.FindClass | management/views.py:202-204 | finds a class with the id, or none exactly when no class has it |
| ManagementViews.ClassDetail | management/views.py:177-224 | the view as evidently intended: a bad month is a bad request before the lookup; a missing class is NotFound; otherwise exactly the class's payments (of the month, if filtered) and registrations, their total and counts, and the filter |
| ManagementViews.DetailPage | management/views.py:206-211 | the serializer's page for a found class lists exactly that class's payments (of the month, if filtered), as many as the table has, with their total equal to the table's selected sum, and exactly its registrations, as many as the table has, with the active count being those in state 1 |
| ManagementViews.ListedOfClass | management/serializers.py:320-329 | the listed payments are exactly the class's payments of the selected month |
| ManagementViews.ListedSelected | management/serializers.py:320-355 | the listed payments are the selected payments of the table in order, and their sum is the selected share of the table |
| ManagementViews.DetailPageMonthSplit | management/serializers.py:320-355 | a month filter keeps the registrations and counts, lists part of the unfiltered payments, and its total plus the other months' is the unfiltered total |
| ManagementViews.ClassDetailAsWritten | management/serializers.py:310-318 | the view as written: a found class is answered with a server error exactly when a listed serializer field names nothing on Class; otherwise the intended outcome |
| ManagementViews.ClassDetailAsWrittenFails | management/serializers.py:317 | "current_month" names nothing, so every found class gets a server error where a page was intended |
| ManagementViews.CorrectedFieldsResolve | management/serializers.py:310-317 | without "current_month" every listed field resolves |
| Validators.LastIndexOf | management/validators.py:6 | the last position of the character, with none after it |
| Validators.Extension | management/validators.py:6 | `os.path.splitext(...)[1]`: non-empty exactly when the last path component has a dot after some non-dot character, and then the suffix from the last dot, with no further dot or slash |
| Validators.PdfAcceptedEndsWithPdf | management/validators.py:5-8 | an accepted name ends in ".pdf" in any letter case, after a character that is not a dot |
| Validators.PlainPdfAccepted | management/validators.py:5-8 | a plain name ending in ".pdf" or ".PDF" is accepted |
| Validators.UpperCasePdfAccepted | management/validators.py:6-7 | "report.PDF" is accepted |
| Validators.DoubleExtensionRejected | management/validators.py:6-7 | "a.pdf.exe" is rejected |
| Validators.HiddenNameRejected | management/validators.py:6 | ".pdf" has no extension and is rejected |
| Validators.DirectoryDotRejected | management/validators.py:6 | a dot in a directory name is not an extension |
| Validators.SizeBoundsInclusive | management/validators.py:11-20 | 10 MiB and 5 MiB pass their checks, and one byte more fails |
| Validators.ImageSizeWithinFileSize | management/validators.py:11-20 | every image size that passes also passes the document ceiling |
| ManagementAdmin.MoreDays | management/admin.py:379 | `"... (+n)"`, from which n reads back |
| ManagementAdmin.DaysShort | management/admin.py:375-380 | "No days" for none; all labels comma-joined for one to three; otherwise the first three joined, then the number left out |
| ManagementAdmin.DaysShortTruncates | management/admin.py:375-380 | days past the third change only the count: a longer list shows its first three days' display followed by the number left out |
| ManagementAdmin.AdminDuration | management/admin.py:384-392 | "-" when a time is missing |
| ManagementAdmin.AdminDurationAgrees | management/admin.py:384-392 | with both times set it equals the serializer's duration; with one missing the two differ |
| MainSite.NewsTitle | main/models.py:26-27 | the Korean title exactly for "ko" (the default), the Uzbek title otherwise, with no fallback |
| MainSite.NewsContent | main/serializers.py:20-22 | the same selection for content |
| MainSite.PersonFullName | main/models.py:43-44 | the same selection for a person's full name |
| MainSite.PersonPosition | main/models.py:46-47 | the same selection for a position |
| MainSite.ExperienceText | main/serializers.py:38-40 | the same selection for experience |
| MainSite.GalleryTitle | main/models.py:76-77 | the same selection for a gallery title |
| MainSite.GalleryItemDescription | main/serializers.py:58-60 | the same selection for an item description |
| MainSite.FeedbackFullname | main/serializers.py:87-89 | the same selection for a feedback name |
| MainSite.FeedbackDescription | main/serializers.py:91-93 | the same selection for a feedback description |
| MainSite.DefaultIsKorean | main/views.py:20 | without a language the Korean side is selected |
| MainSite.SelectionHasNoFallback | main/serializers.py:16-18 | under "ko" a missing Korean title stays missing, while the string form falls back to the Uzbek one |
| MainSite.NullableStr | main/models.py:32-33 | `ko or uz` as written: `None` exactly when the Korean value is falsy and the Uzbek one null |
| MainSite.NullableStrNotAString | main/models.py:32-33 | a row without a Korean or Uzbek value has no string form |
| MainSite.DisplayStr | main/models.py:32-33 | always a string: the resolved value when there is one, "" otherwise |
| MainSite.DisplayStrExtends | main/models.py:32-33 | the total form equals the as-written form wherever that has a value |
| MainSite.GalleryStr | main/models.py:79-80 | a gallery's `__str__` is `ko or uz` of its required titles |
| MainSite.GalleryItemStr | main/models.py:94-95 | an item's `__str__` is its gallery's, or "None" without a gallery |
| MainSite.ReportStr | main/models.py:129-130 | the `umumiy_oquv` count in decimal, which reads back as that count |

## Left out

- Django's ORM, querysets and migrations. Tables are sequences, and lookups and cascades are explicit functions.
- The catch-all handlers that turn any exception into a 500 response. The 500 path is modelled for the two views that raise on every request of a kind (see Findings): the class detail and the finance list. Other exceptions the model can name are modelled as a raise or an error outcome.
- JWT minting, signing and blacklist storage. Token validity is a predicate parameter and the blacklist is a set.
- `make_password` and `check_password`. Both are function parameters. A hash from the default hasher starts with "pbkdf2_".
- File storage, image dimensions, absolute URLs, avatars and detail URLs. A file field is its stored name.
- The `float()` conversion of the finance totals. Totals are exact sums in cents.
- URL routing. The finance view is not routed in management/urls.py; this does not change what the view computes.
- Admin registration and configuration, and the viewset wiring of the main site. Only the admin's pure helpers are modelled.
- Atomicity. The code does not make entity-plus-user creation atomic, so `Accounts.SaveNew` writes the account before the user clash raises.
- Field-level write checks beyond what decides acceptance. `max_length`, whitespace trimming and type coercion are not modelled; required fields, non-blank text and existing references are.
- A blank title in a write is rejected by the field layer, because the title columns are `CharField`s without `blank=True`, so `validate` never sees it. The model follows the code here: `validate` is reached only by non-blank values.
- `ClassPayment.payment_month`: the model (management/models.py:536-546) has no such column, yet the serializer and the finance view read it. As written, `finance_payments_list` therefore answers 500 whenever a class payment exists (see Findings). `Finance.FinancePaymentsList` models the intended view, with the month a field of the modelled record.
- `Class.current_month`: the class detail serializer lists it and the view reads it for `filter_info`, but Class has no such attribute. Building the serializer's fields therefore raises for every found class, filtered or not, and the view answers 500 (see Findings). `ManagementViews.ClassDetail` models the intended page: it returns the filter it applied and leaves `class_current_month` out.
- `ClassTimeTable.days` is a `CharField` with choices, so DRF's choice field rejects a list before `validate`, and the display methods iterate a stored string character by character. The model follows the rule the code states: `days` is a list of weekday keys.
- `Text.ParseInt`: Python's `int()` is modelled for ASCII digits, an optional sign, the six ASCII whitespace characters space, `\t`, `\n`, `\r`, `\x0b` and `\x0c` around the number, and single underscores between digits. Python also strips the separators `\x1c`-`\x1f`, `\x85` and other Unicode whitespace, and accepts other Unicode digits; none of these is modelled.
- `Accounts.ValidateLogin`: the fields' trimming strips the six ASCII whitespace characters of `Text.ParseInt`; Python's `str.strip` also strips the other Unicode whitespace, which is not modelled.
- `Text.Lower`: only ASCII letters are lowered. This is exact for the comparison with ".pdf".
- Times carry hours, minutes and seconds. Microseconds are not modelled.
- `Accounts.SaveExisting`: it requires an index of an existing account, because saving an existing row presupposes that row.
- `classes_list`, `employee_profile` and the other plain list and profile views, which only serialize what they load.
- The `__str__` of AboutUs, Carousel, Career, Organ and the document models. They are plain field reads.
- `ManagementSerializers.RepresentativeName`: the contract states the stripped ends and the length bound. The exact text is given by the lemmas for the empty, both-names and Uzbek-only cases.
- `ManagementAdmin.AdminDuration`: the contract states only the "-" case. Agreement with the serializer when both times are set is the lemma `AdminDurationAgrees`.

## Findings

| source | as written | input that shows it | evidently intended | confidence | as-written member | corrected member |
|---|---|---|---|---|---|---|
| management/serializers.py:310-318 | `ClassDetailSerializer.Meta.fields` lists "current_month", which is neither a column of Class nor a declared field, so `serializer.data` raises and `class_detail` answers 500 | any existing class, with or without `?month=` (lemma `ManagementViews.ClassDetailAsWrittenFails`) | the detail page of the class: its payments, registrations, counts and totals | high; not executed | ManagementViews.ClassDetailAsWritten | ManagementViews.ClassDetail |
| management/views.py:617-618 | the finance view reads `payment.payment_month`, but ClassPayment (management/models.py:536-546) has no such column, so the loop raises AttributeError and the handler answers 500 | an upsight_staff request while at least one class payment exists (lemma `Finance.FinanceAsWrittenFails`) | the combined report of entrance and class payments with their totals and counts | high; not executed | Finance.FinancePaymentsListAsWritten | Finance.FinancePaymentsList |
| main/models.py:32-33 (and 49-50, 67-68, 120-121) | `__str__` returns `title_ko or title_uz` on nullable columns, which is `None` when both are null | a News row with `title_ko = None` and `title_uz = None`, where `str()` raises `TypeError` (lemma `MainSite.NullableStrNotAString`) | `__str__` always returns a string, "" when there is no title | medium; not executed | MainSite.NullableStr | MainSite.DisplayStr |
