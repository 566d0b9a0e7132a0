# Kid Scholars school management: a verified model of the admission core

This project models the admission and school-office core of the Kid Scholars
school management system in Dafny and proves properties of that model.

- **The back end** (`backend/server.py`) is modelled as a class `Store`.
  - Its fields are the applications, students, users, notifications and
    attendance collections.
  - Its handlers cover: the public application, the public status lookup,
    the staff update, the admission of a student, user creation, login, and
    the class attendance merge.
  - Every state-changing handler is a method that states the whole new state;
    the read-only handlers (the status lookup and login) are functions that
    read the store. The records a handler builds are pure functions, and the
    lemmas about them live beside them.
- **The admin and admission front ends** are modelled as mostly pure
  functions over their form and list state:
  - the admissions table of the admin dashboard: sorting, filtering, badges,
    the hold dialog and the admit rule;
  - the admission officer's dashboard;
  - the parent's tracking page;
  - document upload and review;
  - standards and teacher assignment;
  - announcements;
  - fees;
  - CSV reports.
- **Stateful screens keep their form:**
  - the admissions table is a class, and its sort runs in place on an array;
  - the attendance screen is a class whose methods update the marks map.

Identifiers, uuid fragments, the clock, the current year and password hashing
are parameters. `hash_password` and `verify_password` are uninterpreted
function values.

Two helper modules hold what several screens share:

- `Seqs`: `find`, `filter` and counting over sequences.
- `Text`: JavaScript `trim`, ASCII case mapping, decimal rendering, `zfill`,
  `join`/`split`, `includes` and string order.

Facts worth knowing about the code:

- `update_application` writes any status it is given, and `admit_student`
  refuses only an application that is already `admitted`. No transition table
  between statuses is enforced.
- `update_application` answers 404 when the update changes nothing. This
  follows from its `modified_count == 0` test, and the model reproduces it.
- The admission officer's status picker cannot choose `documents_verified`,
  and the Admit button on that dashboard appears only for that status
  (`PickerNeverEnablesAdmit`).

## Model

| member | source | states |
|---|---|---|
| AdmissionStore.Take | backend/server.py:264 | `s[:n]` has at most n characters and is a prefix of s: exactly n when s is long enough, and s itself when it is not |
| AdmissionStore.PrefixedNumber | backend/server.py:263-267 | a reference number (prefix `KSIS`) or admission number (prefix `ADM`) starts with `{prefix}-{year}-` and has at most six characters after it |
| AdmissionStore.SeqField | backend/server.py:270 | the sequence field has at least three digits, reads back as the sequence number, and equals its decimal form when that already has three or more digits (never truncated) |
| AdmissionStore.RollNumber | backend/server.py:269-270 | a roll number is year, upper-cased standard, upper-cased section and sequence field joined by '-'; it starts with the year and its last field is the sequence field |
| AdmissionStore.UpperKeepsDash | backend/server.py:270 | upper-casing neither adds nor removes a '-' |
| AdmissionStore.RollNumberFields | backend/server.py:269-270 | a roll number is year, upper-cased standard, upper-cased section and sequence field joined by '-', and splits back into exactly those four fields when standard and section hold no '-' |
| AdmissionStore.RollNumberSequence | backend/server.py:269-270 | the last field of a roll number is the zero-padded sequence field, all digits, at least three long, and reads back as the sequence number |
| AdmissionStore.RollReadsBack | backend/server.py:269-270 | any string equal to a roll number has a last field that is all digits and reads back as the sequence number |
| AdmissionStore.RollNumbersDistinct | backend/server.py:269-270 | different sequence numbers give different roll numbers for the same year, standard and section |
| AdmissionStore.NewApplication | backend/server.py:358-370 | a new application has status `enquiry_new`, a `KSIS-{year}-` reference, the request's fields copied, the given id and timestamps, and no remarks, admission number, roll number, section or year |
| AdmissionStore.Patch | backend/server.py:419-426 | each field sent overwrites the stored one, `updated_at` is refreshed, and every other field is unchanged |
| AdmissionStore.MarkAdmitted | backend/server.py:502-512 | the admitted application has status `admitted`, the admission and roll numbers, section, year and new `updated_at`, and is otherwise unchanged |
| AdmissionStore.AdmittedStudent | backend/server.py:483-499 | the student is in the application's class, the requested section and year; it is active, linked to the parent and the application, and copies the numbers, name, gender and birth date |
| AdmissionStore.DefaultPassword | backend/server.py:469 | the default parent password is `parent` followed by the year |
| AdmissionStore.ParentAccount | backend/server.py:465-475 | a new parent account has the application's email, role `parent`, the hash of the default password, the parent's name and mobile, and is active |
| AdmissionStore.AdmissionNotice | backend/server.py:515-522 | the notification is addressed to the parent id, titled `Admission Confirmed!` and unread |
| AdmissionStore.AdmissionNoticeMentions | backend/server.py:518 | the notification text contains the student's name, the roll number and the parent's email |
| AdmissionStore.NewUser | backend/server.py:942-948 | a created user keeps the request's email, role, name and mobile, stores the hash of the password, and is active |
| AdmissionStore.View | backend/server.py:391-398 | the lookup shows reference, name, class, status and submission date, and the stored remarks or the default remarks when there are none |
| AdmissionStore.StatusLookup | backend/server.py:383-398 | the lookup fails with 404 exactly when no application matches both the reference number and the date of birth; otherwise it shows a matching application |
| AdmissionStore.SubmittedIsTrackable | backend/server.py:358-398 | a submitted application is found by its reference and birth date, with status `enquiry_new` and the default remarks, unless an earlier application answers to the same pair |
| AdmissionStore.LoginCheck | backend/server.py:286-307 | a login succeeds exactly when the first user with the email is active and its hash verifies the password, and then returns that user's id, email, role and name; an unknown email or a wrong password gives `Invalid credentials`; a verifying password for an inactive first user gives `Account is inactive`, and that answer comes only from an inactive first user |
| AdmissionStore.ResolveParent | backend/server.py:462-480 | the first user with the application's email is reused; otherwise exactly one parent account is appended with the new id; unique emails stay unique |
| AdmissionStore.NewParentCanLogIn | backend/server.py:462-480 | a parent account created by an admission logs in with the default password the admission returns |
| AdmissionStore.ParentReused | backend/server.py:462-480 | a second admission with the same parent email creates no account and reuses the first parent id |
| AdmissionStore.AdmitAdvancesSequence | backend/server.py:454-459 | admitting a student raises the count of its class, section and year by one and leaves every other count alone |
| AdmissionStore.AdmittedStaysFound | backend/server.py:441-447 | after an admission the application is still the first with its id and is `admitted`, so a second admit is refused |
| AdmissionStore.PatchStaysFound | backend/server.py:419-426 | a staff update keeps the application where lookups by id find it |
| AdmissionStore.LatestRecord | backend/server.py:715 | a student's record is absent exactly when no record has its id; otherwise it is a record with that id that no later record for the same student follows |
| AdmissionStore.LatestRecordSnoc | backend/server.py:715 | a record written last is the latest for its student and changes nobody else's |
| AdmissionStore.IndexesSnoc | backend/server.py:715 | writing one more record into the dictionary keeps it an exact index of the latest records |
| AdmissionStore.IndexByStudent | backend/server.py:715 | the dictionary built from the records has exactly the students that have a record, each mapped to its latest record |
| AdmissionStore.ClassEntries | backend/server.py:720-725 | one entry per roster student, in order, pairing the student with its latest record |
| AdmissionStore.MergeAttendance | backend/server.py:717-725 | the merge loop yields exactly the class entries of the roster and the records |
| AdmissionStore.AdmissionAppends | backend/server.py:483-522 | an admission appends exactly one student and one notification, keeps the earlier ones, and changes no other application |
| AdmissionStore.AdmissionAgrees | backend/server.py:441-530 | the admitted application, the new student and the response agree on the status, ids, admission number, roll number (the next of the class, section and year), section, year, parent email and default password |
| AdmissionStore.NextRollNumber | backend/server.py:454-459 | the roll number an admission issues starts with the year and ends in a field that reads as one more than the students already in the class, section and year |
| AdmissionStore.Admission | backend/server.py:450-531 | a successful admission keeps the number of applications, marks the admitted one `admitted`, appends one student whose roll number is the one answered, and answers success with an `ADM-{year}-` admission number |
| AdmissionStore.AdmissionParentLinked | backend/server.py:462-522 | the new student and its notification point at the same parent id, and a user with that id has the application's email |
| AdmissionStore.Admit | backend/server.py:439-531 | an unknown id gives 404 and an `admitted` application gives 400, both changing nothing; any other status is admitted |
| AdmissionStore.Store.constructor | backend/server.py:23-25 | the store starts with every collection empty |
| AdmissionStore.Store.CreateApplication | backend/server.py:358-376 | exactly one application is appended and the response carries its reference number; nothing else changes |
| AdmissionStore.Store.CheckApplicationStatus | backend/server.py:382-399 | the lookup fails exactly when no application matches both fields, and otherwise shows the first match |
| AdmissionStore.Store.UpdateApplication | backend/server.py:419-432 | an unknown id, or an update that leaves the document as it was, gives 404 and changes nothing; otherwise the first application with the id is patched and nothing else changes |
| AdmissionStore.Store.AdmitStudent | backend/server.py:438-531 | the response and the new collections are those of `Admit`; the attendance is untouched |
| AdmissionStore.Store.CreateUser | backend/server.py:933-951 | a caller who is not super or school admin gets 403, a used email gives 400, both changing nothing; otherwise exactly one user is appended, and unique emails stay unique |
| AdmissionStore.Store.Login | backend/server.py:285-307 | the answer is LoginCheck over the stored users: success exactly for an active first user whose hash verifies, `Invalid credentials` for an unknown email or wrong password, `Account is inactive` otherwise |
| AdmissionStore.Store.GetClassAttendance | backend/server.py:695-725 | the answer is one entry per active student of the class and section, paired with the latest record of the date |
| AdmissionManagement.NextSortConfig | aj_academy/frontend/src/pages/admin/AdminDashboard.js:314-320 | sorting by a column makes it the sort key, descending exactly when it was already the key in ascending order |
| AdmissionManagement.SortToggles | aj_academy/frontend/src/pages/admin/AdminDashboard.js:314-320 | clicking the same column again flips the direction |
| AdmissionManagement.NormalizeStatus | aj_academy/frontend/src/pages/admin/AdminDashboard.js:322 | a normalised status is the character-wise lower-casing of the status (or of ''): the same length and no upper-case letter |
| AdmissionManagement.NormalizeStatusIdempotent | aj_academy/frontend/src/pages/admin/AdminDashboard.js:322 | normalising twice is normalising once |
| AdmissionManagement.FilterByStatus | aj_academy/frontend/src/pages/admin/AdminDashboard.js:326-331 | `all` keeps every row; any other filter keeps exactly the rows whose normalised status equals it, in order |
| AdmissionManagement.InOrderTotal | aj_academy/frontend/src/pages/admin/AdminDashboard.js:352-360 | any two values are in order one way or the other |
| AdmissionManagement.InOrderTransitive | aj_academy/frontend/src/pages/admin/AdminDashboard.js:352-360 | the comparator's order is transitive |
| AdmissionManagement.AdjacentToSorted | aj_academy/frontend/src/pages/admin/AdminDashboard.js:333-361 | rows in order between neighbours are in order between every pair |
| AdmissionManagement.DescIsReversedAsc | aj_academy/frontend/src/pages/admin/AdminDashboard.js:352-360 | descending order by a column is ascending order read backwards |
| AdmissionManagement.Reverse | aj_academy/frontend/src/pages/admin/AdminDashboard.js:352-360 | the reverse has the same length and the mirrored elements |
| AdmissionManagement.InsertingStep | aj_academy/frontend/src/pages/admin/AdminDashboard.js:333-361 | swapping the moved row with a greater left neighbour keeps the insertion pass going |
| AdmissionManagement.InsertingStart | aj_academy/frontend/src/pages/admin/AdminDashboard.js:333-361 | a pass starts with the rows before it in order |
| AdmissionManagement.InsertingDone | aj_academy/frontend/src/pages/admin/AdminDashboard.js:333-361 | a finished pass leaves the first rows in order between neighbours |
| AdmissionManagement.InsertRow | aj_academy/frontend/src/pages/admin/AdminDashboard.js:333-361 | one pass leaves the prefix in order, the rest of the array untouched, and the rows a permutation of the old ones |
| AdmissionManagement.SortRows | aj_academy/frontend/src/pages/admin/AdminDashboard.js:333-361 | the sorted array is in order by the column and direction and is a permutation of the old one |
| AdmissionManagement.StatusBadge | aj_academy/frontend/src/pages/admin/AdminDashboard.js:373-387 | a known status gets its table badge; a missing or unknown one gets the `enquiry_new` badge |
| AdmissionManagement.BadgeLabelsDistinct | aj_academy/frontend/src/pages/admin/AdminDashboard.js:373-387 | different stored statuses have different badge captions |
| AdmissionManagement.ShowAdmitButton | aj_academy/frontend/src/pages/admin/AdminDashboard.js:528 | the Admit button never appears for a missing status or for `admitted` |
| AdmissionManagement.AdmitButtonOnlyForAdmissible | aj_academy/frontend/src/pages/admin/AdminDashboard.js:528 | over the stored statuses the button appears exactly for `documents_verified` and `payment_pending`, so never for an application the back end would refuse as already admitted |
| AdmissionManagement.PendingCount | aj_academy/frontend/src/pages/admin/AdminDashboard.js:57-59 | the pending count is at most the number of applications, and 0 exactly when none is new, hot or warm |
| AdmissionManagement.PendingIsSum | aj_academy/frontend/src/pages/admin/AdminDashboard.js:57-59 | the pending count is the sum of the new, hot and warm counts |
| AdmissionManagement.AdmissionTable.constructor | aj_academy/frontend/src/pages/admin/AdminDashboard.js:236-237 | the table starts unsorted, filtered by `all`, with the hold dialog closed and empty |
| AdmissionManagement.AdmissionTable.HandleSort | aj_academy/frontend/src/pages/admin/AdminDashboard.js:314-320 | only the sort configuration changes, to the next configuration for the column |
| AdmissionManagement.AdmissionTable.GetSortedAndFilteredApplications | aj_academy/frontend/src/pages/admin/AdminDashboard.js:324-364 | the rows shown are a permutation of the filtered rows, in table order when no column is chosen and sorted by the chosen column otherwise |
| AdmissionManagement.AdmissionTable.HandleStatusUpdate | aj_academy/frontend/src/pages/admin/AdminDashboard.js:255-278 | `on_hold` opens an empty hold dialog for the row and sends nothing; an unconfirmed `rejected` sends nothing; any other choice sends exactly the new status |
| AdmissionManagement.AdmissionTable.SubmitHold | aj_academy/frontend/src/pages/admin/AdminDashboard.js:280-302 | a message that trims to nothing is refused, a missing row id sends nothing, otherwise `on_hold` with the trimmed remark is sent; a success closes and clears the dialog |
| AdmissionManagement.HoldRemarksAreTrimmed | aj_academy/frontend/src/pages/admin/AdminDashboard.js:281 | a hold remark neither starts nor ends with white space |
| AdmissionDashboard.CardValue | frontend/src/pages/admission/AdmissionDashboard.js:96-97 | the Total card is the number of applications; any other card is at most that, and 0 exactly when no status contains its lower-cased caption |
| AdmissionDashboard.Cards | frontend/src/pages/admission/AdmissionDashboard.js:92-101 | four figures, the first the number of applications and none of the others above it |
| AdmissionDashboard.LowerHot | frontend/src/pages/admission/AdmissionDashboard.js:97 | the lower-cased caption `Hot` is `hot` |
| AdmissionDashboard.LowerWarm | frontend/src/pages/admission/AdmissionDashboard.js:97 | the lower-cased caption `Warm` is `warm` |
| AdmissionDashboard.LowerCold | frontend/src/pages/admission/AdmissionDashboard.js:97 | the lower-cased caption `Cold` is `cold` |
| AdmissionStore.HotOnlyInEnquiryHot | backend/server.py:75-85 | of the stored statuses only `enquiry_hot` contains `hot` |
| AdmissionStore.WarmOnlyInEnquiryWarm | backend/server.py:75-85 | of the stored statuses only `enquiry_warm` contains `warm` |
| AdmissionStore.ColdOnlyInEnquiryCold | backend/server.py:75-85 | of the stored statuses only `enquiry_cold` contains `cold` |
| AdmissionDashboard.SameCount | frontend/src/pages/admission/AdmissionDashboard.js:97 | counting by two predicates that agree on every application gives the same number |
| AdmissionDashboard.CardCountsStatus | frontend/src/pages/admission/AdmissionDashboard.js:97 | a card whose caption occurs in exactly one stored status counts the applications in that status |
| AdmissionDashboard.EnquiryCountsBounded | frontend/src/pages/admission/AdmissionDashboard.js:97 | hot, warm and cold applications together are at most all applications |
| AdmissionDashboard.CardsCountEnquiries | frontend/src/pages/admission/AdmissionDashboard.js:92-101 | the Hot, Warm and Cold cards count exactly the applications in those enquiry statuses, and together never exceed Total |
| AdmissionDashboard.StatusUpdate | frontend/src/pages/admission/AdmissionDashboard.js:36-39 | a status change sends the chosen status and leaves remarks and section out |
| AdmissionDashboard.StatusUpdateOnlyStatus | frontend/src/pages/admission/AdmissionDashboard.js:38 | applied by the back end, a status change replaces the status and `updated_at` and keeps everything else |
| AdmissionDashboard.PickerNeverEnablesAdmit | frontend/src/pages/admission/AdmissionDashboard.js:128-143 | no status the picker offers shows the Admit button, which needs `documents_verified` |
| AdmissionDashboard.AdmitForm | frontend/src/pages/admission/AdmissionDashboard.js:180-183 | the admit form starts at section `A` and year `2025-2026` |
| ApplicationTracking.InitialLink | aj_academy/frontend/src/pages/ApplicationTrackingPage.js:22-23 | each link input starts with the stored link, or '' when the application or the link is missing |
| ApplicationTracking.SubmittedLinkReloads | aj_academy/frontend/src/pages/ApplicationTrackingPage.js:22-51 | after a successful submission the input reloads with the submitted, trimmed link |
| ApplicationTracking.SubmitLink | aj_academy/frontend/src/pages/ApplicationTrackingPage.js:39-76 | an input that trims to nothing sends nothing and changes nothing; otherwise the trimmed link is sent, and on success only the submitted link field of a loaded application changes |
| ApplicationTracking.BlankLinkRefused | aj_academy/frontend/src/pages/ApplicationTrackingPage.js:41-45 | a link of white space only is refused |
| ApplicationTracking.SentLinkIsTrimmed | aj_academy/frontend/src/pages/ApplicationTrackingPage.js:41-49 | a sent link neither starts nor ends with white space, and sending it again sends the same link |
| ApplicationTracking.UnderscoresToSpaces | aj_academy/frontend/src/pages/ApplicationTrackingPage.js:102 | every '_' becomes a space and every other character is kept |
| ApplicationTracking.CapitalizeFrom | aj_academy/frontend/src/pages/ApplicationTrackingPage.js:102 | exactly the word characters at a word boundary are upper-cased |
| ApplicationTracking.Capitalize | aj_academy/frontend/src/pages/ApplicationTrackingPage.js:102 | exactly the word characters that start the string or follow a non-word character are upper-cased |
| ApplicationTracking.FormatStatus | aj_academy/frontend/src/pages/ApplicationTrackingPage.js:101-103 | a missing or empty status shows `Unknown`; otherwise the caption has the status's length and no '_', with each '_' a space and each word's first character upper-cased |
| ApplicationTracking.StatusIcon | aj_academy/frontend/src/pages/ApplicationTrackingPage.js:91-99 | a check exactly for verified documents and admission, a clock exactly while documents or payment are pending |
| ApplicationTracking.StatusMessage | aj_academy/frontend/src/pages/ApplicationTrackingPage.js:105-119 | a known status gets its message; a missing or unknown one gets `Your application is being processed.` |
| ApplicationTracking.StatusColour | aj_academy/frontend/src/pages/ApplicationTrackingPage.js:78-89 | `hot`, `warm` and `cold` anywhere in the status win, tested in that order; otherwise `documents_pending` is yellow, `documents_verified` green, `payment_pending` purple, `admitted` emerald and `rejected` red, and any other status, or a missing one, is grey |
| ApplicationTracking.BackendStatusColours | aj_academy/frontend/src/pages/ApplicationTrackingPage.js:78-89 | the colour of each of the ten stored statuses: the enquiries red, orange and blue by temperature, `enquiry_new` and `on_hold` grey, and the exact colours for the rest |
| ApplicationTracking.ExactStatusColours | aj_academy/frontend/src/pages/ApplicationTrackingPage.js:82-88 | a status without 'h', 'w' or 'c' is coloured by the exact comparisons alone |
| ApplicationTracking.HotWins | aj_academy/frontend/src/pages/ApplicationTrackingPage.js:79 | a status containing `hot` is red whatever else it contains |
| ApplicationTracking.FormsForBackendStatus | aj_academy/frontend/src/pages/ApplicationTrackingPage.js:318-369 | for a stored status the documents form shows exactly in `documents_pending` and the receipt form exactly in `payment_pending`, so never both |
| DocumentUpload.CheckFile | aj_academy/frontend/src/components/DocumentUpload.js:37-52 | no file, a file over 5 MiB, or a type outside JPEG, PNG, JPG and PDF is each refused, in that order; anything else is accepted |
| DocumentUpload.Upload | aj_academy/frontend/src/components/DocumentUpload.js:37-71 | a request is sent exactly for an accepted file, with the selected type and the file's name, data and type |
| DocumentUpload.ChecklistIsRequiredTypes | aj_academy/frontend/src/components/DocumentUpload.js:12-20 | the checklist lists exactly the birth certificate, the Aadhaar card and the photo |
| DocumentUpload.DocumentStatus | aj_academy/frontend/src/components/DocumentUpload.js:145-148 | the status is that of the first document of the type, or none when there is no such document |
| DocumentUpload.Mark | aj_academy/frontend/src/components/DocumentUpload.js:204-218 | each mark exactly for its status: verified, rejected and pending for those three, and missing when there is no status or any other one |
| DocumentUpload.StatusBadge | aj_academy/frontend/src/components/DocumentUpload.js:136-143 | a known status gets its badge and any other gets the pending badge |
| DocumentUpload.ReviewedNotReviewable | aj_academy/frontend/src/components/DocumentUpload.js:272-290 | a verified or rejected document is never offered for review again |
| FeeManagement.TotalFee | frontend/src/pages/finance/FeeManagementView.js:46-51 | 0 when no structure is for the student's class, otherwise the five fees of the first such structure added up |
| FeeManagement.SumAmountsSnoc | frontend/src/pages/finance/FeeManagementView.js:56 | a later payment adds its amount to the sum |
| FeeManagement.PaidAmount | frontend/src/pages/finance/FeeManagementView.js:53-57 | the paid amount is 0 when the student has no `paid` payment |
| FeeManagement.PaidAmountSnoc | frontend/src/pages/finance/FeeManagementView.js:53-57 | a later payment raises the paid amount by its amount exactly when it is the student's and `paid` |
| FeeManagement.PaidAmountNonNegative | frontend/src/pages/finance/FeeManagementView.js:53-57 | with no negative amounts the paid amount is not negative |
| FeeManagement.Due | frontend/src/pages/finance/FeeManagementView.js:157-160 | due plus paid is the total fee, so due is negative when more than the total was paid |
| FeeManagement.InitialPaymentForm | frontend/src/pages/finance/FeeManagementView.js:243-247 | the form opens on the amount due, in cash |
| FeeManagement.RecordedPayment | frontend/src/pages/finance/FeeManagementView.js:256-262 | the recorded payment is the student's, always `paid`, with the form's amount and mode |
| FeeManagement.CollectingDueSettles | frontend/src/pages/finance/FeeManagementView.js:243-262 | recording the form as it opens leaves nothing due |
| Announcements.Toggle | frontend/src/pages/admin/AnnouncementsView.js:84-100 | a value in the list is removed everywhere and every other value kept; a value not in it is appended |
| Announcements.FilterOtherTwice | frontend/src/pages/admin/AnnouncementsView.js:88 | removing a value twice is removing it once |
| Announcements.ToggleTwiceRestores | frontend/src/pages/admin/AnnouncementsView.js:84-100 | toggling a value that is not in the list twice gives the list back |
| Announcements.ToggleKeepsOthers | frontend/src/pages/admin/AnnouncementsView.js:84-100 | a toggle keeps every other value, in the same order |
| Announcements.FilterDistinct | frontend/src/pages/admin/AnnouncementsView.js:88 | filtering a list without repeats gives a list without repeats |
| Announcements.ToggleKeepsDistinct | frontend/src/pages/admin/AnnouncementsView.js:84-100 | toggles keep a list without repeats free of repeats |
| Announcements.ToggleRole | frontend/src/pages/admin/AnnouncementsView.js:84-91 | only the target roles change, by the toggle |
| Announcements.ToggleClass | frontend/src/pages/admin/AnnouncementsView.js:93-100 | only the target classes change, by the toggle |
| Announcements.AfterCreate | frontend/src/pages/admin/AnnouncementsView.js:44-59 | a successful send empties the form; a failed one keeps it |
| AcademicSetup.CollapseSpace | aj_academy/frontend/src/pages/admin/AcademicSetupView.js:113 | collapsing white space never lengthens the name |
| AcademicSetup.CollapseRun | aj_academy/frontend/src/pages/admin/AcademicSetupView.js:113 | a maximal run of white space becomes one '_' |
| AcademicSetup.CollapseKeeps | aj_academy/frontend/src/pages/admin/AcademicSetupView.js:113 | a character other than white space passes through |
| AcademicSetup.CollapseNoSpace | aj_academy/frontend/src/pages/admin/AcademicSetupView.js:113 | a string without white space is left as it is |
| AcademicSetup.LowerNoUpper | aj_academy/frontend/src/pages/admin/AcademicSetupView.js:112 | lower-casing a string with no upper-case letter changes nothing |
| AcademicSetup.StandardCode | aj_academy/frontend/src/pages/admin/AcademicSetupView.js:111-114 | a generated code holds only `[a-z0-9_]` and is no longer than the display name |
| AcademicSetup.StandardCodeIdempotent | aj_academy/frontend/src/pages/admin/AcademicSetupView.js:111-114 | a generated code is its own code |
| AcademicSetup.StandardCodeKeepsAllowed | aj_academy/frontend/src/pages/admin/AcademicSetupView.js:111-114 | a character is in the code exactly when it is allowed and in the lower-cased, collapsed name |
| AcademicSetup.EditForm | aj_academy/frontend/src/pages/admin/AcademicSetupView.js:140-150 | the edit form copies the standard, with '' for a missing age range or description |
| AcademicSetup.SaveStandard | aj_academy/frontend/src/pages/admin/AcademicSetupView.js:102-122 | an edit sends display name, age range and description only; a create sends them with name and code both the generated code |
| AcademicSetup.EditUnchangedSendsOwnFields | aj_academy/frontend/src/pages/admin/AcademicSetupView.js:102-147 | saving an edit form unchanged sends back the standard's own display name, age range and description |
| AcademicSetup.AfterSave | aj_academy/frontend/src/pages/admin/AcademicSetupView.js:124-134 | a successful save empties the form; a failed one keeps it |
| AcademicSetup.ToggleStatus | aj_academy/frontend/src/pages/admin/AcademicSetupView.js:166-170 | the status toggle sends the negation of the current status for the same standard |
| AcademicSetup.Teachers | aj_academy/frontend/src/pages/admin/AcademicSetupView.js:56 | the teacher list holds exactly the users whose role is `teacher` |
| AcademicSetup.TeacherName | aj_academy/frontend/src/pages/admin/AcademicSetupView.js:62-65 | the non-empty full name of the first user with the id; none when that name is empty or no user has the id |
| AcademicSetup.ActiveOptions | aj_academy/frontend/src/pages/admin/AcademicSetupView.js:468-472 | one option per active standard, and no other |
| AcademicSetup.StandardOptions | aj_academy/frontend/src/pages/admin/AcademicSetupView.js:468-480 | the four built-in standards exactly when no standard exists, otherwise the active standards |
| TeacherAssignment.SectionsForForm | aj_academy/frontend/src/pages/admin/TeacherAssignmentView.js:45-47 | exactly the sections of the form's standard and academic year |
| TeacherAssignment.DefaultYear | aj_academy/frontend/src/pages/admin/TeacherAssignmentView.js:48 | the first active year when it is not empty, else the first year, else '' |
| TeacherAssignment.SelectYear | aj_academy/frontend/src/pages/admin/TeacherAssignmentView.js:176 | choosing a year clears the section and changes nothing else |
| TeacherAssignment.SelectStandard | aj_academy/frontend/src/pages/admin/TeacherAssignmentView.js:191 | choosing a standard clears the section and changes nothing else |
| TeacherAssignment.OpenModal | aj_academy/frontend/src/pages/admin/TeacherAssignmentView.js:91 | opening keeps a chosen year and otherwise fills in the default year |
| TeacherAssignment.OpenModalIdempotent | aj_academy/frontend/src/pages/admin/TeacherAssignmentView.js:91 | opening a second time changes nothing more |
| TeacherAssignment.AfterSubmit | aj_academy/frontend/src/pages/admin/TeacherAssignmentView.js:50-67 | a successful assignment resets the form with the default year; a failed one keeps it |
| TeacherAssignment.NextAssignmentStartsFromDefault | aj_academy/frontend/src/pages/admin/TeacherAssignmentView.js:57-91 | after a successful assignment the next opening starts from the default year |
| TeacherAssignment.TeacherLabel | aj_academy/frontend/src/pages/admin/TeacherAssignmentView.js:80-83 | the full name of the first teacher with the id when it is not empty; `Unknown` when no teacher has the id or the first one's name is empty; never the empty string |
| Reports.Keys | frontend/src/pages/finance/ReportsView.js:66 | the keys of a row, one per field, in order |
| Reports.Lookup | frontend/src/pages/finance/ReportsView.js:69 | none exactly when the row has no field with the key |
| Reports.CellText | frontend/src/pages/finance/ReportsView.js:69 | '' for a missing or falsy value, a string verbatim, a number in decimal, `true` for true |
| Reports.Cells | frontend/src/pages/finance/ReportsView.js:69 | one quoted cell per header, in header order |
| Reports.DataLines | frontend/src/pages/finance/ReportsView.js:69 | one data line per row, in order |
| Reports.ExportCsv | frontend/src/pages/finance/ReportsView.js:60-70 | missing or empty data is refused; otherwise the file is the header line followed by the data lines, joined by line breaks |
| Reports.DataLineSingle | frontend/src/pages/finance/ReportsView.js:69 | a data line holds no line break when its texts hold none |
| Reports.ExportLines | frontend/src/pages/finance/ReportsView.js:66-70 | when no text holds a line break the file splits back into the header line and one line per row |
| Reports.DataLineCells | frontend/src/pages/finance/ReportsView.js:69 | when no cell text holds a comma a data line splits back into exactly one cell per header |
| Reports.UpiOnline | frontend/src/pages/finance/ReportsView.js:152 | the UPI/Online card adds the two amounts, a missing mode counting 0 |
| Attendance.PresentMarks | frontend/src/pages/teacher/AttendanceView.js:22-25 | the marks have exactly the listed students' ids as keys, each `present` |
| Attendance.StatusOf | frontend/src/pages/teacher/AttendanceView.js:41 | a student's submitted status is its mark, `present` when it has none or an empty one |
| Attendance.AttendanceList | frontend/src/pages/teacher/AttendanceView.js:39-43 | one entry per student, in order, with the student's status and empty remarks |
| Attendance.PresentMarksSubmitPresent | frontend/src/pages/teacher/AttendanceView.js:22-43 | after loading or marking all present every student is submitted `present` |
| Attendance.ChangeAffectsOnlyThatStudent | frontend/src/pages/teacher/AttendanceView.js:32-43 | changing one student's mark changes the submitted status of that student only |
| Attendance.AttendanceSheet.constructor | frontend/src/pages/teacher/AttendanceView.js:7-9 | the screen starts on the given date with no students and no marks |
| Attendance.AttendanceSheet.LoadStudents | frontend/src/pages/teacher/AttendanceView.js:16-30 | on success the students are loaded and each marked `present`; on failure nothing changes |
| Attendance.AttendanceSheet.ChangeAttendance | frontend/src/pages/teacher/AttendanceView.js:32-34 | only the one student's mark changes |
| Attendance.AttendanceSheet.MarkAllPresent | frontend/src/pages/teacher/AttendanceView.js:60-66 | the marks become exactly the current students, each `present` |
| Attendance.AttendanceSheet.SubmitRequest | frontend/src/pages/teacher/AttendanceView.js:36-50 | the request carries the date, the first student's class and section (`lkg` and `A` when there is no student or the field is empty) and the attendance list |
| Text.LeadingSpace | aj_academy/frontend/src/pages/admin/AdminDashboard.js:281 | the white space run at the start is maximal |
| Text.TrailingSpace | aj_academy/frontend/src/pages/admin/AdminDashboard.js:281 | the white space run at the end is maximal |
| Text.Trim | aj_academy/frontend/src/pages/admin/AdminDashboard.js:281 | the result is a slice of the input with only white space cut off, and starts and ends with something else when not empty |
| Text.TrimEmptyIff | aj_academy/frontend/src/pages/admin/AdminDashboard.js:281-285 | a string trims to nothing exactly when it is all white space |
| Text.TrimIdempotent | aj_academy/frontend/src/pages/ApplicationTrackingPage.js:41 | trimming twice is trimming once |
| Text.Lower | aj_academy/frontend/src/pages/admin/AdminDashboard.js:322 | lower-casing keeps the length and maps each character |
| Text.Upper | backend/server.py:270 | upper-casing keeps the length and maps each character |
| Text.NatToString | backend/server.py:270 | a rendered number is all digits, and starts with '0' only for 0 |
| Text.NatToStringValue | backend/server.py:270 | a rendered number reads back as itself |
| Text.NatToStringInjective | backend/server.py:270 | different numbers render differently |
| Text.ZFill | backend/server.py:270 | `zfill` pads with '0' on the left up to the width and never cuts the string |
| Text.ZFillValue | backend/server.py:270 | padding with zeros keeps the value |
| Text.SplitJoin | backend/server.py:270 | splitting a join on a separator no part contains gives the parts back |
| Text.LastFieldAfter | backend/server.py:270 | the text after the last separator is the final field |
| Text.NotContains | frontend/src/pages/admission/AdmissionDashboard.js:97 | a string lacking one of a word's characters does not contain the word |
| Text.LexLeTransitive | aj_academy/frontend/src/pages/admin/AdminDashboard.js:352-357 | the comparator's non-strict string order is transitive |
| Seqs.FirstIndex | backend/server.py:440 | the index of the first match, none exactly when nothing matches |
| Seqs.Count | backend/server.py:454-458 | the count is at most the length, 0 exactly when nothing matches, and the length exactly when everything matches |
| Seqs.Filter | aj_academy/frontend/src/pages/admin/AdminDashboard.js:329 | the kept elements are exactly the matching elements of the input |

## Left out

- Persistence and async: MongoDB calls, `await`, the `to_list(1000)` limits and the `created_at` sort of the application list are not modelled. Collections are in-memory sequences, and `find_one` is the first match in sequence order.
- Concurrency: two admissions racing between the count and the insert can issue the same roll number. The model runs handlers one at a time.
- Randomness and the clock: uuids, uuid fragments, the year and timestamps are parameters. Nothing is claimed about their uniqueness.
- Foreign calls: JWT tokens, bcrypt and the Razorpay client. `hash_password` and `verify_password` are uninterpreted function values, so login returns the user summary and no token.
- Authorisation by token (`get_current_user`): only `create_user` is modelled with its role check, taking the caller's role as a parameter.
- `EmailStr` normalisation of emails is not modelled. Emails are compared as given.
- The other endpoints of `backend/server.py` are not modelled: academic years, sections, assignments, documents, fees, payments, notifications, password reset and dashboard statistics.
- The front ends also call endpoints that the shown back end does not implement: standards, tracking tokens, link submission, `/fee-payments/record` and `/announcements`. The model stops at the request each screen sends.
- Lower: models `toLowerCase` on ASCII letters only. Characters outside ASCII whose lower case differs are mapped to themselves.
- Upper: models Python `str.upper` on ASCII letters only, for the same reason.
- Text.LexLess compares characters by code point, whereas JavaScript compares UTF-16 code units. The two orders differ only for characters outside the Basic Multilingual Plane.
- SortRows: sortedness and permutation are proved, but stability of `Array.prototype.sort` is not. A row without the sort field is compared as ''.
- AdmissionManagement.StatusBadge, DocumentUpload.StatusBadge and ApplicationTracking.StatusMessage look a status up in an object literal. A status such as `constructor` would find an inherited property there; the model treats it as unknown.
- The admission officer's admit modal posts through an `api` object that `AdmissionDashboard.js` does not import. The model covers the form it would send, not the call.
- The CSV builder does not escape quotes, commas or line breaks inside values. `ExportLines` and `DataLineCells` state the read-back only for values without them.
- Number input through `parseInt` (NaN for an empty field) is not modelled. Amounts are integers.
- File reading (FileReader, base64), Blob downloads, previews and `new URL` checks are not modelled. The file data is a parameter of the upload.
- The start-up seeding of a default super-admin account is not modelled. The store starts with every collection empty.
- NewApplication: `create_application` reads the clock twice, for `created_at` and `updated_at`. The model takes one timestamp for both.
- Rendering, toasts, modals, routing and local storage are not modelled, nor are the screens with no logic of their own.
