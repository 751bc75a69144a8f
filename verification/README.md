# Medi-Track front-end logic in Dafny

Medi-Track is a React and Redux front end for a medical booking system with three kinds of user.
Patients browse doctors, book half-hour slots, follow their appointments, prescriptions, payments and support tickets, and file complaints.
Doctors confirm appointments, see a month calendar of their schedule and write prescriptions.
Administrators manage users, appointments, prescriptions and support tickets.

This project models the decision logic behind those screens as pure Dafny functions over immutable datatypes:

- the filters, sort comparators, paginations and page-button lists of every table;
- the booking controller, with its slot catalogue, disabled-slot rule, end-time derivation, guard and payload;
- the ticket workflow of the administrator's support desk;
- the doctor's six-week calendar, built on a proleptic Gregorian calendar;
- the session slice of the store and the role-dependent sidebar and landing route;
- the sign-in, sign-up and complaint forms;
- the cache tags of the prescription endpoints.

Each operation comes with the property that gives it meaning, proved for all inputs.
Examples are a sub-list holding exactly the matching rows, a permutation ordered by the chosen column and, where the source's comparator is consistent, stable on ties, and an exact transition table.
Others are a round trip (end time ↔ start time, payload ↔ form), an invariant a step keeps (page in range, field limits), and a count that agrees with what a tab lists.

Modules follow the source:

- `Booking` covers both copies of the doctor browser.
- `Tickets` is the administrator's support desk; `PatientTickets` is the patient's ticket list.
- `Users` is the user table.
- `DoctorPrescriptions`, `AdminPrescriptions` and `PatientPrescriptions` cover the three prescription screens.
- `PatientAppointments`, `DoctorAppointments`, `AdminAppointments` and `DoctorSchedule` cover the appointment screens.
- `Payments`, `Complaints`, `Session`, `Navigation`, `AuthPages` and `PrescriptionCache` cover the payment list, the complaint dialog, the session slice, the sidebar, the sign-in and sign-up pages and the prescription cache tags.
- They share `Wrappers` (Option), `Text`, `Lists`, `Sorting`, `Paging`, `Envelope` (response normalisation) and `Calendar`.

The clock, the server's replies and the answer to every confirmation dialog are parameters.

## Model

| member | source | states |
|---|---|---|
| Booking.FormatTime | src/dash/User/Viewdoctors.tsx:50 | a minute of the day is shown as five characters, two digits, a colon and two digits |
| Booking.ParseFormatTime | src/dash/User/Viewdoctors.tsx:46-50 | reading a shown time back gives its minute of the day |
| Booking.FormatTimeInjective | src/dash/User/Viewdoctors.tsx:50 | two different minutes of the day are never shown the same |
| Booking.MinuteOfDay | src/dash/User/Viewdoctors.tsx:47-49 | a minute count read on the clock lies within one day and differs from the count by whole days |
| Booking.EndTime | src/dash/User/Viewdoctors.tsx:44-52 | for a readable start the end time is five characters long and reads back as the start plus 30 minutes on a 24-hour clock; it is readable exactly when the start is, and an unreadable start gives the clock's "Inval" text |
| Booking.EndTimeOfFormatted | src/dash/User/Viewdoctors.tsx:44-52 | a shown start time ends 30 minutes later, carrying into the hour and wrapping at midnight, and the end reads back as that minute |
| Booking.CatalogueSlots | src/dash/User/Viewdoctors.tsx:12-17 | there are sixteen slots and slot i starts at 08:00 plus i half-hours |
| Booking.CatalogueIncreasing | src/dash/User/Viewdoctors.tsx:12-17 | the slots are distinct and run in increasing order of time |
| Booking.CatalogueEndTimes | src/dash/User/Viewdoctors.tsx:12-17 | each slot ends half an hour after it starts, exactly where the next slot starts |
| Booking.SlotEndsAtNext | src/dash/User/Viewdoctors.tsx:44-52 | the end time of a slot is the start of the following slot |
| Booking.LastSlotEndsAtFour | src/dash/User/Viewdoctors.tsx:16 | the last slot, 15:30, ends at 16:00 |
| Booking.TakenTimes | src/dash/User/Viewdoctors.tsx:30-34 | the taken-slot query is skipped, and sees nothing, unless both a doctor and a date are chosen |
| Booking.TakenStartDisablesOneSlot | src/dash/User/Viewdoctors.tsx:284-286 | one taken start time disables at most one catalogue slot |
| Booking.SlotDisabledWhen | src/dash/User/Viewdoctors.tsx:284-286 | a slot booked as "slot:00" is disabled, every slot is disabled after a successful booking, and with no taken start time and no success nothing is disabled |
| Booking.SkippedQueryDisablesNothing | src/dash/User/Viewdoctors.tsx:30-34 | without both a doctor and a date, and before any success, no slot is disabled |
| Booking.ChooseDoctor | src/dash/User/Viewdoctors.tsx:94-98 | opening the dialog for a doctor selects that doctor and resets the mutation, keeping any date and times already chosen |
| Booking.SetDate | src/dash/User/Viewdoctors.tsx:266-273 | the date input sets the date to whatever value it reports, and does nothing once the booking has succeeded |
| Booking.PickedDateNotBeforeToday | src/dash/User/Viewdoctors.tsx:271 | the picker offers today and exactly the days whose `YYYY-MM-DD` text does not sort before the `min` text; a day picked from it sets a date no earlier than today |
| Booking.ClickSlot | src/dash/User/Viewdoctors.tsx:298-299 | a disabled slot does nothing; any other sets the start time and its end time |
| Booking.SucceededDraftFrozen | src/dash/User/Viewdoctors.tsx:272 | after a successful booking neither the date nor the slot can change |
| Booking.ClickFreeCatalogueSlot | src/dash/User/Viewdoctors.tsx:283-299 | picking free slot i sets the start to 08:00 plus i half-hours and the end half an hour later |
| Booking.ConfirmSameInBothCopies | src/dash/User/Viewdoctors.tsx:360-363 | both copies let Confirm be pressed in exactly the same drafts: a start time is chosen and the booking is neither loading nor done (the routed copy at src/api/User/Viewdoctors.tsx lines 161-168) |
| Booking.Close | src/dash/User/Viewdoctors.tsx:85-92 | closing clears the doctor, the date and both times, closes the dialog and resets the mutation |
| Booking.CloseForgetsDraft | src/dash/User/Viewdoctors.tsx:85-92 | any two drafts close to the same state, closing twice is closing once, and a closed draft cannot be submitted |
| Booking.Submit | src/dash/User/Viewdoctors.tsx:54-69 | a booking is sent iff user id, doctor, date, start and end are all truthy, otherwise the copy's message is shown; the request carries the ids, the date, both times with ":00" added, the fee of 500 and two separate clock readings as createdOn and updatedOn, and the mutation starts loading |
| Booking.PayloadTimesRoundTrip | src/dash/User/Viewdoctors.tsx:64-65 | dropping the added seconds from the request gives back the chosen start and end times |
| Booking.BookCatalogueSlot | src/dash/User/Viewdoctors.tsx:44-69 | booking free slot i for a chosen doctor and date sends start and end half an hour apart, with seconds, and the fee of 500 |
| Booking.FailureNotice | src/dash/User/Viewdoctors.tsx:75-81 | a failure notice shows the server's message when there is one, else the fixed text; the routed copy always shows its own fixed text (src/api/User/Viewdoctors.tsx line 72) |
| Booking.FailureNoticeAsWritten | src/dash/User/Viewdoctors.tsx:77-80 | the dashboard's notice as written reads the mutation error from before the request, not the one just caught |
| Booking.StaleErrorHidesServerMessage | src/dash/User/Viewdoctors.tsx:77-80 | on a first failure the written notice shows the fixed text although the server sent a message, which the corrected notice shows |
| Booking.Settle | src/dash/User/Viewdoctors.tsx:71-82 | an accepted booking marks the mutation succeeded and the dashboard shows its success text; a rejected one records the server's message in the mutation, the routed copy shows its fixed text, and the dashboard shows the notice computed from the mutation state when Confirm was pressed: the fixed fallback unless an earlier attempt had failed |
| Booking.FirstRefusalShowsFallback | src/dash/User/Viewdoctors.tsx:54-98 | after the dialog is opened from a doctor card and a booking is sent, a refusal shows the fixed fallback text whatever the server said, while the mutation records the server's message |
| Booking.RetryShowsPreviousMessage | src/dash/User/Viewdoctors.tsx:77-80 | after one refusal, a second refusal shows the first one's server message: the dashboard notice lags one answer behind |
| Booking.AcceptedBookingLocks | src/dash/User/Viewdoctors.tsx:272-363 | after an accepted booking the draft is frozen and Confirm cannot be pressed again |
| Booking.FilterDoctors | src/dash/User/Viewdoctors.tsx:102-106 | the doctor list is never longer and every doctor in it matches the search and the specialization |
| Booking.FilterDoctorsSpec | src/dash/User/Viewdoctors.tsx:102-106 | the list keeps, in order, exactly the doctors whose "first last" name contains the search ignoring case and whose specialization equals a chosen one; with neither, everyone is kept |
| Booking.FilterDoctorsIgnoresCase | src/dash/User/Viewdoctors.tsx:103 | typing the search in any case gives the same list |
| Booking.SpecializationOptions | src/dash/User/Viewdoctors.tsx:100 | the options have no duplicates and are exactly the specializations the doctors have, a missing one included |
| Booking.SpecializationOptionsOrder | src/dash/User/Viewdoctors.tsx:100 | the options appear in the order in which their first doctor appears |
| Tickets.StageOf | src/dash/Admin/AdminTicktes.tsx:82-83 | a missing status names no stage; otherwise the stage is read from the lower-cased status |
| Tickets.StageOfName | src/dash/Admin/AdminTicktes.tsx:82-101 | the status string sent for a stage is read back as that stage |
| Tickets.StepsFrom | src/dash/Admin/AdminTicktes.tsx:82-103 | an unknown or closed stage offers no step, and exactly the steps that close ask for confirmation |
| Tickets.NextSteps | src/dash/Admin/AdminTicktes.tsx:82-103 | an unknown or closed status offers no button, and exactly the buttons that close ask for confirmation |
| Tickets.StepsFollowWorkflow | src/dash/Admin/AdminTicktes.tsx:82-103 | from each stage the targets offered are exactly the stages the workflow allows (any other open stage or Closed, never Pending, nothing from Closed), without repetition |
| Tickets.NextStepsFollowWorkflow | src/dash/Admin/AdminTicktes.tsx:82-103 | for a stored status the buttons offered are exactly the moves the workflow allows from its stage, without repetition |
| Tickets.NextStepsTable | src/dash/Admin/AdminTicktes.tsx:84-101 | pending offers In Progress, Resolved and Closed; in progress offers Resolved and Closed; resolved offers a "Reopen" to In Progress and Closed; closed offers nothing |
| Tickets.NoSelfTransition | src/dash/Admin/AdminTicktes.tsx:82-103 | no offered button leaves the ticket in the stage it is in |
| Tickets.NextStepsIgnoreCase | src/dash/Admin/AdminTicktes.tsx:83 | the buttons offered do not depend on the case of the status |
| Tickets.Press | src/dash/Admin/AdminTicktes.tsx:288-294 | a button sends nothing exactly when it needs confirmation and the confirmation is declined; otherwise it sends the ticket's id and the target status |
| Tickets.OnlyClosingAsks | src/dash/Admin/AdminTicktes.tsx:285-294 | among the offered buttons only the move to Closed can be declined, and every button sends once confirmed |
| Tickets.ClosedRowOffersNothing | src/dash/Admin/AdminTicktes.tsx:281-285 | a row whose own status or whose complaint's status is closed shows no status button |
| Tickets.FilterTickets | src/dash/Admin/AdminTicktes.tsx:26-41 | the filtered list is never longer and every row in it matches the search and the status |
| Tickets.FilterTicketsSpec | src/dash/Admin/AdminTicktes.tsx:26-41 | the filter keeps exactly the matching rows, in order; a row matches iff the subject, description, id or a doctor name contains the search (ignoring case except for the id) and its complaint's status equals the chosen one ignoring case; with "all" and an empty search, exactly the rows with some field to search in are kept |
| Tickets.EmptySearchMatches | src/dash/Admin/AdminTicktes.tsx:30-37 | an empty search matches a row exactly when it has a subject, a description, an id or a doctor name part, since every string includes the empty one |
| Tickets.StatusFilterIgnoresCase | src/dash/Admin/AdminTicktes.tsx:38 | the status filter does not depend on the case of the chosen status |
| Tickets.TicketList | src/dash/Admin/AdminTicktes.tsx:18-24 | a bare array response is the list as is |
| Tickets.FilteredTickets | src/dash/Admin/AdminTicktes.tsx:18-41 | the corrected filter runs over the unwrapped list and yields a subsequence of it |
| Tickets.FilteredTicketsAsWritten | src/dash/Admin/AdminTicktes.tsx:26-28 | the filter as written gives an empty list for no response, filters a bare array, and fails on a wrapped response |
| Tickets.WrappedResponseBreaksFilter | src/dash/Admin/AdminTicktes.tsx:18-41 | the written and corrected filters agree unless the response is wrapped; a response wrapped under `data` is counted by the stats but makes the written filter fail, while the corrected one lists the matching row |
| Tickets.Stats | src/dash/Admin/AdminTicktes.tsx:43-50 | the total is the number of rows and the four status counters together never exceed it |
| Tickets.StatsCountStages | src/dash/Admin/AdminTicktes.tsx:43-50 | a row is counted as pending or closed exactly when its own status names that stage, a row with an unknown status is in no bucket, and each row adds one to the total |
| Envelope.Unwrap | src/dash/Admin/AdminTicktes.tsx:18-24 | no response gives an empty list, a bare array is taken as is, an object holding none of the names gives an empty list, and one holding the first name gives that field |
| Envelope.UnwrapOrder | src/dash/Admin/AdminTicktes.tsx:20-23 | the second name is used only when the first is missing, and neither gives an empty list |
| Envelope.UnwrapIdempotent | src/dash/Admin/AdminTicktes.tsx:18-24 | an unwrapped list, handed back as a bare array, unwraps to itself |
| Sorting.Compare | src/dash/Admin/ViewUsers.tsx:80-82 | the comparator answers -1, 0 or 1, answers 0 exactly on equal values, and is negative exactly when the first value comes first in the chosen order |
| Sorting.CompareAntisymmetric | src/dash/Admin/ViewUsers.tsx:80-82 | swapping the values negates the answer, and descending is ascending negated |
| Sorting.CompareAsWritten | src/dash/User/MyTickets.tsx:134-138 | the comparator as written never answers 0: ascending answers 1 exactly when the second value is smaller, descending exactly when the first is |
| Sorting.CompareAsWrittenTies | src/dash/User/MyTickets.tsx:134-138 | on two equal values the written comparator answers -1 both ways round, so it is not a consistent comparator |
| Sorting.CompareConsistent | src/dash/Admin/ViewUsers.tsx:80-82 | the corrected comparator answers 0 on equal values and opposite signs on swapped ones |
| Sorting.CompareAsWrittenOffTies | src/dash/User/MyTickets.tsx:134-138 | on distinct values the written and corrected comparators agree |
| Sorting.SortBy | src/dash/Admin/ViewUsers.tsx:55-83 | sorting a copy gives a permutation of it |
| Sorting.SortBySorted | src/dash/Admin/ViewUsers.tsx:55-83 | the sorted copy is ordered by the comparator |
| Sorting.SortByStable | src/dash/Admin/ViewUsers.tsx:55-83 | values with equal keys keep their input order, as the stable engine sort keeps them |
| Users.FilterUsers | src/dash/Admin/ViewUsers.tsx:46-52 | the filtered list is never longer and every user in it matches the role, the email search and the name search |
| Users.FilterUsersSpec | src/dash/Admin/ViewUsers.tsx:46-52 | the filter keeps exactly the users of the chosen role (any role for "all") whose email and full name contain their searches ignoring case, in order; with no filters everyone is kept |
| Users.UserComparator | src/dash/Admin/ViewUsers.tsx:55-83 | the comparator returns -1, 0 or 1; 0 exactly when the two users have the same key (name and email lower-cased, role as is, creation time as a number); negative exactly when the first user's key comes first in the chosen direction |
| Users.UserComparatorSpec | src/dash/Admin/ViewUsers.tsx:80-82 | the comparator returns -1, 0 or 1, returns 0 exactly on equal keys, is antisymmetric, and the descending order is the ascending one negated |
| Users.ListedFollowsComparator | src/dash/Admin/ViewUsers.tsx:54-83 | the screen's comparator equals the shared key comparison, and for every pair of listed users the earlier one never compares greater than the later one |
| Users.ListedUsers | src/dash/Admin/ViewUsers.tsx:45-86 | the table is a permutation of the filtered users |
| Users.ListedUsersSpec | src/dash/Admin/ViewUsers.tsx:45-86 | the table is ordered by the chosen column and order, and users tied on that column keep their original order |
| Users.PageOfUsers | src/dash/Admin/ViewUsers.tsx:89-91 | a page holds at most the page size of users, and they are the consecutive slice of the sorted table starting at the page's first index |
| Users.PagerButtons | src/dash/Admin/ViewUsers.tsx:401-431 | the numbered buttons are the pages kept by the filter: page 1, the last page and pages within two of the current one |
| Users.PressPrevious | src/dash/Admin/ViewUsers.tsx:394-397 | « does nothing on page 1 and otherwise goes one page back, changing nothing else |
| Users.PressNext | src/dash/Admin/ViewUsers.tsx:435-438 | » does nothing on the last page and otherwise goes one page on, changing nothing else |
| Users.PagerStaysInRange | src/dash/Admin/ViewUsers.tsx:394-438 | from a page within range, « and » stay within 1 and the page count and change nothing but the page |
| Users.HandleSort | src/dash/Admin/ViewUsers.tsx:93-101 | a header selects its column and goes back to page 1; the same header flips the order, a new one starts ascending; the filters and page size are kept |
| Users.HandleSortTwice | src/dash/Admin/ViewUsers.tsx:93-101 | clicking a header twice restores the order when it was already the sort column, and otherwise leaves it descending |
| Users.ControlsResetPage | src/dash/Admin/ViewUsers.tsx:243-297 | the role, name and email controls and the page-size select each set their own field, go back to page 1 and change nothing else |
| Users.ClearFilters | src/dash/Admin/ViewUsers.tsx:151-156 | clearing resets the three filters and the page and keeps the sort and the page size |
| Users.ClearFiltersListsEveryone | src/dash/Admin/ViewUsers.tsx:151-156 | after clearing every user is listed again; clearing the initial view changes nothing and clearing twice is clearing once |
| Users.InitialViewDefaults | src/dash/Admin/ViewUsers.tsx:28-34 | the screen opens sorted by name ascending, on page 1 of ten rows, with a page size from the offered ones |
| Users.ActionsFor | src/dash/Admin/ViewUsers.tsx:536-561 | a user can be promoted iff a patient, demoted iff a doctor, deleted iff not an admin, and no action is offered twice |
| Users.AdminsUntouchable | src/dash/Admin/ViewUsers.tsx:536-561 | admins are offered nothing, no role is offered both promote and demote, patients get promote and delete, doctors demote and delete |
| Users.PressAction | src/dash/Admin/ViewUsers.tsx:102-148 | an action not offered for the role sends nothing; an offered one sends the request for that user unless it is a demote or delete whose confirmation is declined |
| Paging.TotalPages | src/dash/Admin/ViewUsers.tsx:89 | the page count is the fewest pages of the given size that hold all rows, and it is 0 exactly when there are no rows |
| Paging.PageRows | src/dash/Admin/ViewUsers.tsx:90-91 | a page is the slice of at most the page size of rows starting at the page's first index, empty past the end |
| Paging.PageNonEmptyIff | src/dash/Admin/ViewUsers.tsx:89-91 | pages 1 to the page count are exactly the non-empty pages |
| Paging.RowOnPage | src/dash/Admin/ViewUsers.tsx:89-91 | every row appears on an existing page, at the position its index gives |
| Paging.PrevPage | src/dash/Doctor/DoctorPrescription.tsx:328 | Previous never goes below page 1 and otherwise goes one page back |
| Paging.NextPage | src/dash/Doctor/DoctorPrescription.tsx:345 | Next never goes beyond the page count and otherwise goes one page on |
| Paging.PrevNextStayInRange | src/dash/Doctor/DoctorPrescription.tsx:328-345 | from a page within range, Previous and Next stay within 1 and the page count |
| Paging.ShownPagesSpec | src/dash/Admin/ViewUsers.tsx:401-406 | the pager's pages rise strictly and are exactly the pages in range that are first, last, or within two of the current page |
| Paging.WithEllipses | src/dash/Admin/ViewUsers.tsx:407-431 | inserting ellipses keeps exactly the given pages as buttons, in order, and puts an ellipsis before a page only when it does not follow the one before |
| Paging.EllipsesEndOnButton | src/dash/Admin/ViewUsers.tsx:407-431 | the pager row always ends on a numbered button |
| Paging.AdjacentButtonsConsecutive | src/dash/Admin/ViewUsers.tsx:407-431 | two buttons side by side always show consecutive pages |
| Paging.EllipsisMarksGap | src/dash/Admin/ViewUsers.tsx:407-431 | every ellipsis is followed by a button, and one inside the row sits between two buttons whose pages are not consecutive |
| Paging.EllipsisPager | src/dash/Admin/ViewUsers.tsx:401-431 | the row's buttons are exactly the shown pages, and it starts and ends on a button |
| Paging.SlidingWindow | src/dash/Doctor/DoctorPrescription.tsx:646-657 | the window holds up to five consecutive pages, all within range, and always includes a current page that is in range |
| Paging.LeadingPages | src/dash/Admin/ViewPrescriptions.tsx:315-316 | the buttons are pages 1 up to the smaller of the page count and 5 |
| DoctorPrescriptions.PatientId | src/dash/Doctor/DoctorPrescription.tsx:114 | the patient id is `user_id` when that is truthy (present and non-zero), otherwise `userId` |
| DoctorPrescriptions.ConfirmedAppointments | src/dash/Doctor/DoctorPrescription.tsx:82-84 | every appointment offered for a prescription has status "confirmed" |
| DoctorPrescriptions.ConfirmedAppointmentsSpec | src/dash/Doctor/DoctorPrescription.tsx:82-84 | the offered appointments are exactly the confirmed ones, in their original order |
| DoctorPrescriptions.FindAppointment | src/dash/Doctor/DoctorPrescription.tsx:131-133 | the lookup finds nothing exactly when no appointment has the id, and otherwise returns the first one that has it |
| DoctorPrescriptions.ClickAppointment | src/dash/Doctor/DoctorPrescription.tsx:112-117 | clicking a card selects its appointment and its patient and keeps the notes |
| DoctorPrescriptions.ChangeAppointment | src/dash/Doctor/DoctorPrescription.tsx:126-138 | the select always takes the chosen id; it keeps the previous patient when no confirmed appointment has that id, and otherwise takes the patient of the first one that does |
| DoctorPrescriptions.ChangeAgreesWithClick | src/dash/Doctor/DoctorPrescription.tsx:112-138 | when appointment ids are unique, choosing an appointment in the select leaves the same form as clicking its card |
| DoctorPrescriptions.Submit | src/dash/Doctor/DoctorPrescription.tsx:140-165 | a prescription is sent iff appointment, patient and doctor ids are truthy and the notes are not blank; each refusal carries its own message, checked in that order; the request carries the three ids and the trimmed notes |
| DoctorPrescriptions.SubmitNotes | src/dash/Doctor/DoctorPrescription.tsx:154-163 | blank notes are never sent, and notes that are sent are non-blank and already trimmed |
| DoctorPrescriptions.ResetForm | src/dash/Doctor/DoctorPrescription.tsx:184-188 | reset clears the appointment, the patient and the notes |
| DoctorPrescriptions.AfterCreated | src/dash/Doctor/DoctorPrescription.tsx:171-174 | after a successful create the appointment, the patient and the notes are cleared |
| DoctorPrescriptions.CreatedEqualsReset | src/dash/Doctor/DoctorPrescription.tsx:140-188 | the form after a create equals the reset form, and submitting it again is refused for want of an appointment |
| DoctorPrescriptions.FilterPrescriptions | src/dash/Doctor/DoctorPrescription.tsx:87-99 | the history is never longer than the list and every row shown matches all three filters |
| DoctorPrescriptions.FilterPrescriptionsSpec | src/dash/Doctor/DoctorPrescription.tsx:87-99 | the history keeps exactly the matching prescriptions in order; a row matches iff the lower-cased patient name, the date and the lower-cased notes contain their filters; with no filters nothing is dropped |
| DoctorPrescriptions.ActiveFiltersCount | src/dash/Doctor/DoctorPrescription.tsx:197 | the badge counts at most three filters and shows zero only when every filter is empty |
| DoctorPrescriptions.PrescriptionsList | src/dash/Doctor/DoctorPrescription.tsx:66-78 | no response gives an empty list, and a bare array is taken as is |
| DoctorPrescriptions.PrescriptionsKeyOrder | src/dash/Doctor/DoctorPrescription.tsx:66-78 | a wrapped response is read from `prescriptions` first, then from `data`, and otherwise gives an empty list |
| DoctorPrescriptions.ClearFilters | src/dash/Doctor/DoctorPrescription.tsx:190-195 | clearing empties the filters, goes back to page 1 of the history and leaves the appointment page alone |
| DoctorPrescriptions.FilterEditsResetPage | src/dash/Doctor/DoctorPrescription.tsx:490-530 | each filter edit goes back to page 1 of the history and keeps the appointment page; after clearing, the badge counts only the one filter set again |
| DoctorPrescriptions.PageButtonsStayInRange | src/dash/Doctor/DoctorPrescription.tsx:328-345 | Previous and Next keep the appointment page counter, and likewise the history counter (lines 633-675), within 1 and its page count, and each pager leaves the other counter alone |
| DoctorPrescriptions.AppointmentsOnPage | src/dash/Doctor/DoctorPrescription.tsx:102-105 | a page shows at most five appointments, all confirmed |
| DoctorPrescriptions.PrescriptionsOnPage | src/dash/Doctor/DoctorPrescription.tsx:107-110 | a page shows at most nine prescriptions, each matching the filters |
| DoctorPrescriptions.HistoryPageButtons | src/dash/Doctor/DoctorPrescription.tsx:646-657 | the pager shows at most five numbered buttons, on consecutive pages |
| DoctorPrescriptions.ShowingRangeCountsRows | src/dash/Doctor/DoctorPrescription.tsx:287 | on a non-empty page the "Showing lo-hi" caption (also at lines 538 and 689) counts exactly the rows shown |
| AdminPrescriptions.FilterRecords | src/dash/Admin/ViewPrescriptions.tsx:20-39 | the table is never longer than the list and every row shown matches all four filters |
| AdminPrescriptions.FilterRecordsSpec | src/dash/Admin/ViewPrescriptions.tsx:20-39 | the table keeps exactly the matching records in their order (patient and doctor name contain their filters ignoring case, the appointment id contains its filter, the issue date equals a non-empty date filter); with no filters nothing is dropped |
| AdminPrescriptions.PageOfRecords | src/dash/Admin/ViewPrescriptions.tsx:41-43 | a page holds at most ten matching records, and it is non-empty exactly when the page number is within the page count |
| AdminPrescriptions.PagerShownIffSeveralPages | src/dash/Admin/ViewPrescriptions.tsx:301 | the pager is shown exactly when there is more than one page |
| AdminPrescriptions.PageButtons | src/dash/Admin/ViewPrescriptions.tsx:315-326 | the numbered buttons are pages 1 up to the smaller of the page count and 5, whatever the current page |
| AdminPrescriptions.NoButtonBeyondFive | src/dash/Admin/ViewPrescriptions.tsx:315-326 | beyond page 5 the current page has no numbered button |
| AdminPrescriptions.PressPrevious | src/dash/Admin/ViewPrescriptions.tsx:308-312 | Previous is disabled on page 1 and otherwise goes one page back, keeping the filters |
| AdminPrescriptions.PressNext | src/dash/Admin/ViewPrescriptions.tsx:328-332 | Next is disabled on the last page and otherwise goes one page on, keeping the filters |
| AdminPrescriptions.PressPage | src/dash/Admin/ViewPrescriptions.tsx:53-55 | a page button sets the page and keeps the filters |
| AdminPrescriptions.PagerStaysInRange | src/dash/Admin/ViewPrescriptions.tsx:308-332 | from a page within range, Previous and Next stay within 1 and the page count |
| AdminPrescriptions.ClearFiltersListsFirstPage | src/dash/Admin/ViewPrescriptions.tsx:45-51 | after clearing, the table shows the first ten records in their order |
| AdminPrescriptions.SetDateFilterAsWritten | src/dash/Admin/ViewPrescriptions.tsx:206 | typing a date sets the date filter and keeps the current page |
| AdminPrescriptions.SetDateFilterCorrected | src/dash/Admin/ViewPrescriptions.tsx:45-51 | the corrected edit sets the date filter, changes no other filter, and goes back to page 1 as clearing does |
| AdminPrescriptions.FilterEditShowsMatches | src/dash/Admin/ViewPrescriptions.tsx:164-206 | with the page reset, any filter edit that leaves some record matching shows a non-empty page |
| AdminPrescriptions.StalePageHidesMatch | src/dash/Admin/ViewPrescriptions.tsx:206 | on page 2 of eleven records, typing the date of the only matching one shows an empty table with no pager, while the corrected edit shows that record |
| PatientPrescriptions.DaysSince | src/dash/User/MyPrescriptions.tsx:41 | the age is the number of whole days elapsed, rounded down, also for a date in the future |
| PatientPrescriptions.StatusForAge | src/dash/User/MyPrescriptions.tsx:39-46 | a prescription is expired after 30 days, completed after 7 and up to 30, and active otherwise; the three cases are exclusive |
| PatientPrescriptions.StatusMonotone | src/dash/User/MyPrescriptions.tsx:39-46 | status only moves forward with age: active, then completed, then expired |
| PatientPrescriptions.OlderIsNotFresher | src/dash/User/MyPrescriptions.tsx:39-46 | at the same moment, a prescription issued earlier never has an earlier status than one issued later |
| PatientPrescriptions.Listed | src/dash/User/MyPrescriptions.tsx:61-95 | the list is a permutation of the matching prescriptions |
| PatientPrescriptions.ListedSpec | src/dash/User/MyPrescriptions.tsx:61-95 | a prescription is listed iff its notes or doctor name contain the search ignoring case, its specialization equals a chosen one and its status equals a chosen one; the list is sorted by the option's column: "newest" by issue time descending, "oldest" ascending, "doctor" and "specialization" alphabetically; prescriptions tied on the column keep their fetched order |
| PatientPrescriptions.ListedByName | src/dash/User/MyPrescriptions.tsx:84-89 | under "doctor" no listed name sorts before an earlier one, and under "specialization" no listed specialization (a missing one read as empty) sorts before an earlier one |
| PatientPrescriptions.DefaultsKeepEverything | src/dash/User/MyPrescriptions.tsx:32-35 | the initial view lists every prescription |
| PatientPrescriptions.PresentSpecializations | src/dash/User/MyPrescriptions.tsx:97-99 | the options are exactly the non-empty specializations that occur among the prescriptions |
| PatientPrescriptions.SpecializationOptions | src/dash/User/MyPrescriptions.tsx:97-99 | the options have no duplicates and are exactly the non-empty specializations that occur |
| PatientPrescriptions.SpecializationOptionsOrder | src/dash/User/MyPrescriptions.tsx:97-99 | the options come in the order of their first appearance, as a `Set` keeps them |
| PatientPrescriptions.OfferedSpecializationSelectsSomething | src/dash/User/MyPrescriptions.tsx:97-99 | choosing any offered specialization lists at least one prescription |
| PatientPrescriptions.ClearFilters | src/dash/User/MyPrescriptions.tsx:101-106 | after clearing, nothing counts as an active filter |
| PatientPrescriptions.ActiveIffNotDefaults | src/dash/User/MyPrescriptions.tsx:108 | a filter counts as active exactly when the view differs from the initial one, the sort order included |
| PatientTickets.Relative | src/dash/User/MyTickets.tsx:42-52 | age 0 is "Today", 1 is "Yesterday", any other age below 7 (a future date included) is a number of days, 7 to 29 is its whole number of weeks (1 to 4), and 30 or more is the absolute date; each case holds exactly for its range |
| PatientTickets.RelativeTextDetermines | src/dash/User/MyTickets.tsx:47-51 | between 2 and 6 days two ages share a text iff they are equal, and between 7 and 29 days iff they fall in the same week |
| PatientTickets.StatusCount | src/dash/User/MyTickets.tsx:81-84 | a tab's count never exceeds the number of tickets, and the "all" tab counts all of them |
| PatientTickets.StatusCountsBounded | src/dash/User/MyTickets.tsx:141-146 | the In Progress, Resolved and Closed counts add up to no more than the "All" count |
| PatientTickets.HandleSort | src/dash/User/MyTickets.tsx:86-93 | a header selects its column; the same header flips the order, a new one starts descending; filters are kept |
| PatientTickets.HandleSortTwice | src/dash/User/MyTickets.tsx:86-93 | clicking the current header twice gives back the view |
| PatientTickets.FilterTickets | src/dash/User/MyTickets.tsx:100-112 | the filtered list is never longer and every ticket in it matches the status and the search |
| PatientTickets.Listed | src/dash/User/MyTickets.tsx:115-139 | the list on screen is a permutation of the filtered tickets |
| PatientTickets.ListedSpec | src/dash/User/MyTickets.tsx:100-139 | the filter keeps the matching tickets in order; the list holds exactly them, sorted by the chosen column and order, with ties in their original order; the defaults filter nothing |
| PatientTickets.DefaultsNewestFirst | src/dash/User/MyTickets.tsx:29-32 | under the initial view the list runs from the newest ticket to the oldest |
| PatientTickets.TabCountMatchesList | src/dash/User/MyTickets.tsx:81-84 | with no search typed, choosing a status tab lists exactly as many tickets as the tab's count |
| PatientAppointments.Grouped | src/dash/User/MyAppointments.tsx:46-50 | a section never holds more appointments than there are, and each one it holds has the section's status |
| PatientAppointments.GroupedSpec | src/dash/User/MyAppointments.tsx:46-50 | each section holds, in order, exactly the appointments with its status, and the three sections together hold no more than all appointments |
| PatientAppointments.GroupedCoversAll | src/dash/User/MyAppointments.tsx:46-50 | the sections lose no appointment exactly when every status is pending, confirmed or cancelled |
| PatientAppointments.Toggle | src/dash/User/MyAppointments.tsx:52-57 | toggling a section flips its own folded flag and leaves the others alone |
| PatientAppointments.ToggleInvolution | src/dash/User/MyAppointments.tsx:52-57 | toggling a section twice restores the flags, and toggling two sections in either order gives the same flags |
| PatientAppointments.VisibleSections | src/dash/User/MyAppointments.tsx:226-227 | the sections shown keep the fixed order and are exactly those the filter selects ("all" selects every one) |
| PatientAppointments.VisibleSectionsCases | src/dash/User/MyAppointments.tsx:226-227 | "all" shows the three sections in order, and a status shows only its own section |
| PatientAppointments.DashboardScreen | src/dash/User/MyAppointments.tsx:103-227 | sections are drawn only when nothing is loading, nothing failed and there is an appointment, and then they are the filtered sections |
| PatientAppointments.RoutedSections | src/api/User/MyAppointments.tsx:54-59 | the routed copy draws no section while loading or after an error, and otherwise all three in the fixed order |
| PatientAppointments.ActionsFollowSections | src/dash/User/MyAppointments.tsx:329-354 | inside the sections, cancel buttons appear exactly in the pending one and complaint forms exactly in the confirmed one, never both on one card |
| PatientAppointments.Cancel | src/dash/User/MyAppointments.tsx:32-36 | a cancel request is sent iff the dialog is confirmed, and it names the card's appointment |
| PatientAppointments.CancelOutcomeSpec | src/dash/User/MyAppointments.tsx:37-43 | only a successful cancellation refetches the list, and the success and failure alerts differ |
| PatientAppointments.InitialFolding | src/dash/User/MyAppointments.tsx:15-19 | the cancelled section alone starts folded, and toggling it leaves every section unfolded |
| DoctorSchedule.AppointmentsForDate | src/dash/Doctor/DoctorSchedule.tsx:68-70 | the day's list is drawn from the loaded appointments and every entry is on the asked date |
| DoctorSchedule.StatusOrPending | src/dash/Doctor/DoctorSchedule.tsx:78 | the shown status is never empty and is the appointment's own status whenever that is non-empty |
| DoctorSchedule.SelectedAppointments | src/dash/Doctor/DoctorSchedule.tsx:73-80 | no selected day gives an empty list; the "all" filter gives the whole day; any other filter keeps only cards whose shown status equals it |
| DoctorSchedule.SelectedAppointmentsSpec | src/dash/Doctor/DoctorSchedule.tsx:73-80 | with a day selected the list is an order-preserving sub-list of the appointments, and an appointment is in it exactly when it is on that day and passes the status filter |
| DoctorSchedule.AvailableStatuses | src/dash/Doctor/DoctorSchedule.tsx:129 | the options start with "all", then list every shown status of the loaded appointments exactly once and nothing else |
| DoctorSchedule.AvailableStatusesOrder | src/dash/Doctor/DoctorSchedule.tsx:129 | after "all" the statuses come in the order of their first appearance among the appointments, as a `Set` keeps them |
| DoctorSchedule.MissingStatusNotConfirmable | src/dash/Doctor/DoctorSchedule.tsx:359 | an appointment with no status is shown and filtered as "pending" yet offers no confirm button; one that offers confirm is shown as pending |
| DoctorSchedule.Days | src/dash/Doctor/DoctorSchedule.tsx:92-110 | the loop's run of days has the requested length, starts at the given day and holds only valid dates |
| DoctorSchedule.DaysStep | src/dash/Doctor/DoctorSchedule.tsx:109 | each day of the run is followed by the next calendar day |
| DoctorSchedule.DaysUnique | src/dash/Doctor/DoctorSchedule.tsx:92-110 | any sequence that starts at a day and steps one calendar day at a time is that day's run |
| DoctorSchedule.MonthEnd | src/dash/Doctor/DoctorSchedule.tsx:109 | the day after the last of a month is the 1st of the following month |
| DoctorSchedule.GridStartSunday | src/dash/Doctor/DoctorSchedule.tsx:86-89 | the grid opens on a Sunday, exactly as many days before the 1st as the 1st's weekday, so at most six |
| DoctorSchedule.SegmentStep | src/dash/Doctor/DoctorSchedule.tsx:109 | consecutive reference cells are consecutive calendar days |
| DoctorSchedule.GridSegments | src/dash/Doctor/DoctorSchedule.tsx:83-113 | the 42 days the loop visits from the grid start are the reference grid |
| DoctorSchedule.CalendarDays | src/dash/Doctor/DoctorSchedule.tsx:83-113 | 42 cells, cell i is the i-th day from the grid start with the ISO string of that local date, its count of that date's appointments, and flags for the shown month, today and the selected date |
| DoctorSchedule.CalendarDaysConsecutive | src/dash/Doctor/DoctorSchedule.tsx:83-113 | the grid starts on the Sunday on or before the 1st and every cell is the day after the one before |
| DoctorSchedule.CellDates | src/dash/Doctor/DoctorSchedule.tsx:93-110 | cell i holds the i-th reference day |
| DoctorSchedule.SegmentMonth | src/dash/Doctor/DoctorSchedule.tsx:96 | a reference cell has the shown month exactly in the middle run of days-in-month cells starting at the 1st's weekday, and there it is the shown year's day i - w + 1 |
| DoctorSchedule.CurrentMonthCells | src/dash/Doctor/DoctorSchedule.tsx:96 | a cell is flagged as the current month exactly when its year and month are the shown ones, although the test compares months only |
| DoctorSchedule.MonthDaysOnce | src/dash/Doctor/DoctorSchedule.tsx:83-113 | every day of the shown month occupies exactly one cell, at the 1st's weekday plus the day minus one |
| DoctorSchedule.CellCountIsSelectedList | src/dash/Doctor/DoctorSchedule.tsx:95 | a cell's count equals the length of the list shown when its date is selected under the "all" filter |
| Calendar.DaysInMonth | src/dash/Doctor/DoctorSchedule.tsx:86-110 | every month has 28 to 31 days, and February has 29 exactly in leap years |
| Calendar.YearLength | src/dash/Doctor/DoctorSchedule.tsx:109 | the day count of a year is 366 in leap years and 365 otherwise |
| Calendar.MonthsFillYear | src/dash/Doctor/DoctorSchedule.tsx:109 | the months of a year add up to the year's length |
| Calendar.NextDay | src/dash/Doctor/DoctorSchedule.tsx:109 | the day after a valid date is a valid date whose day number is one higher |
| Calendar.Weekday | src/dash/Doctor/DoctorSchedule.tsx:88 | getDay lies between 0 (Sunday) and 6 |
| Calendar.WeekdayNext | src/dash/Doctor/DoctorSchedule.tsx:109 | the weekday advances by one, modulo seven, from each day to the next |
| Calendar.KnownWeekdays | src/dash/Doctor/DoctorSchedule.tsx:88 | the weekday count is anchored to the real calendar: 1970-01-01 is a Thursday and 2024-01-01 a Monday |
| Calendar.YearText | src/dash/Doctor/DoctorSchedule.tsx:94 | a year from 0 to 9999 renders as four digits that read back as the year |
| Calendar.IsoDate | src/dash/Doctor/DoctorSchedule.tsx:94 | for four-digit years the date string is ten characters, YYYY-MM-DD, whose digit groups read back as year, month and day |
| Calendar.IsoDateInjective | src/dash/Doctor/DoctorSchedule.tsx:94 | two valid dates with four-digit years that render the same are the same date |
| Calendar.IsoDateOrder | src/dash/User/Viewdoctors.tsx:271 | for four-digit years one date's `YYYY-MM-DD` text sorts before another's exactly when it is the earlier day |
| Sorting.DigitsOrder | src/dash/User/Viewdoctors.tsx:271 | decimal strings of one length sort as their numbers do, and are equal exactly when their numbers are |
| Calendar.ShiftMonth | src/dash/Doctor/DoctorSchedule.tsx:116-126 | the shifted month is a valid month whose month count differs by exactly the shift |
| Calendar.MonthIndexInjective | src/dash/Doctor/DoctorSchedule.tsx:116-126 | a valid month is determined by its month count |
| Calendar.ShiftMonthInverse | src/dash/Doctor/DoctorSchedule.tsx:116-126 | shifting by a number of months and back returns the starting month |
| Calendar.ShiftDateMonthMoves | src/dash/Doctor/DoctorSchedule.tsx:116-126 | setMonth moves the shown month by the requested amount, or by one more exactly when the day does not exist in the target month |
| Calendar.MonthOverflow | src/dash/Doctor/DoctorSchedule.tsx:116-126 | "next" from 31 January 2024 shows March and "previous" from 31 March 2024 stays in March |
| Calendar.NavigateMonth | src/dash/Doctor/DoctorSchedule.tsx:116-126 | intended navigation moves the shown month by exactly one, forward or back |
| Calendar.NavigateMonthInverse | src/dash/Doctor/DoctorSchedule.tsx:116-126 | "next" then "previous", and "previous" then "next", return to the same month |
| Calendar.ShiftDateMonthEarlyDays | src/dash/Doctor/DoctorSchedule.tsx:116-126 | on days 1 to 28 the navigation as written agrees with the intended one |
| DoctorAppointments.FilterAppointments | src/dash/Doctor/DoctorAppointments.tsx:67-70 | the shown count never exceeds the total (line 147); "all" lists every appointment; any other filter lists only appointments whose shown status (a missing one counting as pending) is that filter |
| DoctorAppointments.FilterAppointmentsSpec | src/dash/Doctor/DoctorAppointments.tsx:67-70 | the list holds, in order, exactly the appointments whose shown status matches the filter |
| DoctorAppointments.OfferedStatusSelectsSomething | src/dash/Doctor/DoctorAppointments.tsx:73 | every status option other than "all" lists at least one appointment |
| DoctorAppointments.ClearFilter | src/dash/Doctor/DoctorAppointments.tsx:136-141 | the clear button goes back to a filter that lists every appointment |
| DoctorAppointments.ScheduleAgreesWithList | src/dash/Doctor/DoctorAppointments.tsx:67-70 | the schedule's list for a day equals this list restricted to that day: filtering by status and by day commute |
| DoctorAppointments.Confirm | src/dash/Doctor/DoctorAppointments.tsx:236-238 | a confirm request is offered exactly for appointments whose stored status is "pending", and it names that appointment |
| DoctorAppointments.PendingFilterWithoutConfirm | src/dash/Doctor/DoctorAppointments.tsx:67-70 | under the "pending" filter the cards without a confirm button (offered only for a stored "pending", line 236) are exactly those with no status |
| Payments.StatusOf | src/dash/User/MyPayments.tsx:27 | a non-empty nested status is the payment's status; otherwise the top-level status is |
| Payments.ComputeStats | src/dash/User/MyPayments.tsx:22-33 | no data gives zero counters; otherwise the total is the number of payments and no payment is counted both paid and unpaid |
| Payments.FilterPayments | src/dash/User/MyPayments.tsx:61-75 | no data stays no data, the ALL tab shows the data unchanged, and any other tab shows no more payments than were loaded |
| Payments.TabsMatchCounters | src/dash/User/MyPayments.tsx:22-75 | each tab lists exactly as many payments as its counter shows, and the Paid and Unpaid tabs list exactly the loaded payments whose status is "paid" and "unpaid" |
| Payments.TabNames | src/dash/User/MyPayments.tsx:67-73 | the PAID tab behaves like the lower-cased fallback, while PENDING is mapped to "unpaid", which lower-casing would not give |
| Payments.NestedStatusWins | src/dash/User/MyPayments.tsx:27 | a non-empty nested status wins over the top-level one, and an empty or missing nested status defers to it |
| Payments.CardListsItsCount | src/dash/User/MyPayments.tsx:150-220 | clicking a stat card or tab lists exactly as many payments as the counter it displays, and distinct cards select distinct tabs |
| AdminAppointments.FullName | src/dash/Admin/ViewAppointments.tsx:43-44 | the joined name is never empty, and a missing person gives a single space |
| AdminAppointments.FilterRows | src/dash/Admin/ViewAppointments.tsx:42-54 | the filtered rows are no more than the loaded rows and each meets all six conditions |
| AdminAppointments.FilterRowsSpec | src/dash/Admin/ViewAppointments.tsx:42-54 | the filtered rows are an order-preserving sub-list holding exactly the loaded rows that meet all six conditions, and the resting filters keep every row |
| AdminAppointments.PaymentLabel | src/dash/Admin/ViewAppointments.tsx:262 | the payment column shows the payment status when it is non-empty and "unpaid" otherwise |
| AdminAppointments.MissingPaymentHiddenByUnpaidFilter | src/dash/Admin/ViewAppointments.tsx:51 | a row without a payment record reads "unpaid" yet is not listed under the "unpaid" payment filter |
| AdminAppointments.HandleSort | src/dash/Admin/ViewAppointments.tsx:32-39 | the clicked column becomes the sort column; the direction flips on the same column and starts ascending on another; the filters are untouched |
| AdminAppointments.HandleSortTwice | src/dash/Admin/ViewAppointments.tsx:32-39 | two clicks on the sorted column restore the view; two clicks on a new column leave it sorted descending by that column |
| AdminAppointments.ClearFilters | src/dash/Admin/ViewAppointments.tsx:23-30 | clearing keeps the sort column and direction and yields filters under which every row is listed |
| AdminAppointments.Listed | src/dash/Admin/ViewAppointments.tsx:41-90 | the rows on screen are a permutation of the filtered rows |
| AdminAppointments.ListedSpec | src/dash/Admin/ViewAppointments.tsx:41-90 | a row is listed exactly when it is loaded and matches; the listing is ordered by the chosen column in the chosen direction (dates as `apDate` text, see Left out), and rows tied on it keep their loaded order |
| AdminAppointments.InitialViewLatestFirst | src/dash/Admin/ViewAppointments.tsx:20-21 | the opening view lists every row, with no row above one whose `apDate` text sorts later |
| AdminAppointments.InitialViewCalendarOrder | src/dash/Admin/ViewAppointments.tsx:61-63 | on rows dated `YYYY-MM-DD`, the opening view never lists a row above one with a later calendar day, the order that comparing `new Date(apDate)` values gives |
| AdminAppointments.ComputeStats | src/dash/Admin/ViewAppointments.tsx:92-99 | the total counts every row and the three status counters together never exceed it |
| AdminAppointments.StatusFilterMatchesCounter | src/dash/Admin/ViewAppointments.tsx:50 | choosing a status with no other filter lists exactly as many rows as that status's counter |
| Session.Normalize | src/features/userSlice.ts:28-31 | the stored user copies every field of the sent one and adds docId holding the value of doc_id, undefined when there is none |
| Session.NormalizeIdempotent | src/features/userSlice.ts:28-31 | normalising an already normalised user changes nothing |
| Session.SetCredentials | src/features/userSlice.ts:27-34 | the token is stored, the user is present, reads docId as the sent doc_id and reads every other field as sent |
| Session.ClearCredentials | src/features/userSlice.ts:35-38 | clearing leaves no token and no user |
| Session.LastCredentialsWin | src/features/userSlice.ts:27-34 | a second setCredentials overwrites the first, and nothing of the earlier state shows through |
| Session.ClearRestoresInitial | src/features/userSlice.ts:18-38 | clearing is idempotent and returns to the initial signed-out state, also straight after a sign-in |
| Session.StoredRoleIsSentRole | src/features/userSlice.ts:27-34 | the role the screens read from the store is the role the server sent |
| Navigation.SidebarLinks | src/components/Sidebar.tsx:13-41 | an admin sees the five admin links, a doctor the five doctor links, a patient the five patient links, anyone else nothing |
| Navigation.SidebarStaysInArea | src/components/Sidebar.tsx:13-41 | at most one group shows, it has five links exactly for the three known roles, and every link lies under the role's route prefix |
| Navigation.NoUserNoLinks | src/components/Sidebar.tsx:6-13 | signed out, the sidebar offers no link |
| Navigation.LandingRoute | src/pages/Loginpage.tsx:38-44 | an admin lands on /admin/dashboard, a doctor on /doctor/dashboard, everyone else on /user/dashboard |
| Navigation.LandingAgreesWithSidebar | src/pages/Loginpage.tsx:38-44 | the landing dashboard lies in the same area as every sidebar link offered, and a user of an unknown role lands in the patient area with no links |
| AuthPages.StartLogin | src/pages/Loginpage.tsx:24-93 | the browser hands the form to the handler only when the email is a valid address, the password is non-empty and no login is in flight; then pressing Login starts the spinner, clears the message, keeps the form and posts its email and password |
| AuthPages.PostedLoginWellFormed | src/pages/Loginpage.tsx:63-86 | the empty page posts nothing, and a posted login carries a non-empty password and an email with exactly one `@`, neither first nor last |
| AuthPages.DomainChars | src/pages/Loginpage.tsx:68 | the domain of a valid address is non-empty and made only of letters, digits, hyphens and dots |
| AuthPages.ValidEmailShape | src/pages/Registerpage.tsx:100 | a valid e-mail address holds exactly one `@`, neither first nor last, and no white space |
| AuthPages.EmailExamples | src/pages/Loginpage.tsx:66-71 | the email input accepts "a@b" and refuses "a", "@b" and "a@" |
| AuthPages.FinishLogin | src/pages/Loginpage.tsx:35-49 | success stores the token and user and then navigates to the role's dashboard; failure shows the server's message or the fixed fallback and leaves the session alone; the spinner stops either way |
| AuthPages.LoginAttempt | src/pages/Loginpage.tsx:24-50 | a failed attempt leaves the session unchanged with a non-empty message; a successful one stores credentials before navigating, signs the user in and lands under the role's prefix |
| AuthPages.EditRegister | src/pages/Registerpage.tsx:23-25 | typing into one of the six rendered inputs sets its field and keeps every other field and the role |
| AuthPages.EditsKeepRole | src/pages/Registerpage.tsx:23-25 | no sequence of edits changes the role |
| AuthPages.EveryRegistrationIsPatient | src/pages/Registerpage.tsx:9-134 | every registration the page sends, whatever was typed, asks for role "patient" |
| AuthPages.DefaultRoleIsPatient | src/pages/Registerpage.tsx:9-36 | typing the six fields of the empty form, with matching passwords, sends exactly what was typed as a patient |
| AuthPages.PayloadDropsOnlyConfirmation | src/pages/Registerpage.tsx:36 | the payload is the form without its confirmation field: adding it back recovers the form and a payload survives the round trip |
| AuthPages.SubmitRegister | src/pages/Registerpage.tsx:27-131 | the browser stops a form with an empty field or an invalid email; otherwise mismatched passwords stop with "Passwords do not match." and send nothing, and matching ones send the form minus its confirmation |
| AuthPages.SentRegistrationFilled | src/pages/Registerpage.tsx:56-134 | the untouched form sends nothing, and a sent registration has no empty field and an email with exactly one `@` |
| AuthPages.FinishRegister | src/pages/Registerpage.tsx:37-42 | success shows the server's message and opens the verification page with the form's email; failure stays, showing the server's message or "Registration failed." |
| AuthPages.VerifyGetsSentEmail | src/pages/Registerpage.tsx:36-39 | the verification page is reached only after a sent request and receives the email that was sent, and the payload carries the form's role |
| Complaints.Capped | src/dash/User/MyComplaints.tsx:138 | entered text keeps at most its first max characters and is unchanged when short enough |
| Complaints.RemainingChars | src/dash/User/MyComplaints.tsx:81 | the remaining count and the description length add up to 500, and it stays between 0 and 500 within the limits |
| Complaints.Submit | src/dash/User/MyComplaints.tsx:39-56 | a request is sent exactly when both fields are non-blank and a user is signed in; blank fields are refused first, a missing user second; the request carries the trimmed texts, the appointment and the user's user_id |
| Complaints.SentIsTrimmedAndNonBlank | src/dash/User/MyComplaints.tsx:40-56 | a request is sent exactly when neither field is blank and a user is present, and what it carries is trimmed, non-blank and no longer than what was typed |
| Complaints.EnabledSubmitSends | src/dash/User/MyComplaints.tsx:194 | an enabled submit button always leads to a request for a signed-in user |
| Complaints.Cancel | src/dash/User/MyComplaints.tsx:68-78 | blank fields close the dialog at once; otherwise it is emptied and closed on confirmation and left untouched when declined |
| Complaints.StepsKeepLimits | src/dash/User/MyComplaints.tsx:138-161 | every step keeps both fields within their limits, so the remaining count never goes negative |
| Complaints.ClosingWithoutAsking | src/dash/User/MyComplaints.tsx:68-78 | a dialog that the Cancel control closes without asking for confirmation held only white space, and one reopened after a successful submit shows no hint |
| Complaints.Escape | src/dash/User/MyComplaints.tsx:21-26 | the Escape key closes an open dialog at once, without asking, and keeps both fields' text |
| Complaints.EscapeVersusCancel | src/dash/User/MyComplaints.tsx:21-78 | on a dialog holding text, a declined Cancel leaves it open while Escape closes it; reopening after Escape shows the text again; on a blank dialog the two close alike |
| PrescriptionCache.UserScope | src/dash/api/prescriptionApi.ts:66-67 | a by-user scope tag is a named tag starting with USER- |
| PrescriptionCache.DoctorUserScope | src/dash/api/prescriptionApi.ts:85-86 | a doctor-and-user scope tag is a named tag starting with DOCTOR- |
| PrescriptionCache.ScopesDistinct | src/dash/api/prescriptionApi.ts:55-86 | distinct users have distinct scope tags, and no user, doctor-and-user or list tag coincide |
| PrescriptionCache.ItemTags | src/dash/api/prescriptionApi.ts:57 | one tag per returned prescription, carrying its id, in order |
| PrescriptionCache.Provided | src/dash/api/prescriptionApi.ts:55-58 | a query with no result provides only its scope tag; otherwise its items' tags followed by the scope tag |
| PrescriptionCache.ByDoctorTags | src/dash/api/prescriptionApi.ts:74-77 | the by-doctor query provides only the list tag when the result or its prescriptions field is missing, and otherwise the items' tags followed by the list tag |
| PrescriptionCache.ProvidedItems | src/dash/api/prescriptionApi.ts:55-86 | a prescription's tag is among a query's tags exactly when the query returned that prescription |
| PrescriptionCache.UpdateRefetchesHolders | src/dash/api/prescriptionApi.ts:104 | updating a prescription refetches exactly the cached queries whose result holds it |
| PrescriptionCache.UpdateRefetchesEveryEndpoint | src/dash/api/prescriptionApi.ts:52-105 | through each of the four endpoints, an update refetches the cached result exactly when it holds the updated prescription, for the by-doctor endpoint in its `prescriptions` field |
| PrescriptionCache.CreateRefetchesLists | src/dash/api/prescriptionApi.ts:95 | creating a prescription refetches the all-prescriptions and by-doctor queries whatever they hold |
| PrescriptionCache.ScopedNeverListed | src/dash/api/prescriptionApi.ts:64-95 | a query scoped by any tag other than the list tag is never refetched by a creation |
| PrescriptionCache.CreateSkipsScopedQueries | src/dash/api/prescriptionApi.ts:95 | creating a prescription leaves the by-user and by-doctor-and-user queries cached |
| Text.Lower | src/dash/Admin/ViewAppointments.tsx:43-48 | lower-casing keeps the length and folds every character on its own |
| Text.LowerIdempotent | src/dash/Admin/ViewAppointments.tsx:43-48 | lower-casing a lower-cased string changes nothing |
| Text.LowerConcat | src/dash/Admin/ViewAppointments.tsx:43 | lower-casing a joined name is joining the lower-cased parts |
| Text.ContainsLength | src/dash/Admin/ViewAppointments.tsx:47 | a string includes only strings no longer than itself |
| Text.OrElse | src/pages/Loginpage.tsx:46 | a || b is a when a is a non-empty string and b otherwise |
| Text.Trim | src/dash/User/MyComplaints.tsx:40 | the trimmed text is no longer than the input, has no white space at either end, and is the input with leading and then trailing white space removed |
| Text.TrimEmptyIffBlank | src/dash/User/MyComplaints.tsx:40 | trimming gives the empty string exactly when the input is all white space |
| Text.TrimIdempotent | src/dash/User/MyComplaints.tsx:54-55 | trimming trimmed text changes nothing |
| Text.NatToString | src/dash/Admin/ViewAppointments.tsx:49 | a natural number renders as a non-empty run of digits without a leading zero |
| Text.NatToStringRoundTrip | src/dash/Admin/ViewAppointments.tsx:49 | reading back the decimal rendering of a natural number gives the number |
| Text.IntToStringInjective | src/dash/Admin/ViewAppointments.tsx:49 | distinct integers, signs included, render as distinct strings |

## Left out

- Rendering, styling, icons, modals, toasts and body-scroll locking are presentation only; each screen's state and decisions are modelled, not its markup.
- Network hooks and their loading or error flags are left out. The server's replies, and whether a query ran, are inputs of the functions that consume them.
- `window.confirm` is left out; the user's answer is a boolean parameter.
- The current time is a parameter: `now` in milliseconds, `today` as a date.
- redux-persist and `localStorage` are configuration and I/O, and are not part of this model.
- Monetary totals summed with `parseFloat` in the payments screen are floating point and are left out; only the counters are modelled.
- Overlapping requests, stale responses and re-renders are concurrency that the screens' logic does not address.
- Text.Lower and Text.Trim fold case and strip white space over ASCII only. `toLowerCase` and `trim` cover all of Unicode.
- PatientPrescriptions.Listed: `localeCompare` on doctor names and specializations is modelled as code-point order. Locale collation is not modelled.
- Booking.ParseTime reads only digit strings. Forms such as `" 8"` or `"0x8"`, which `Number` also accepts, read as NaN here. The time input only produces `HH:MM`.
- Booking.EndTime: an unparsable start gives `"Inval"`, the first five characters of `Invalid Date`. Times past midnight wrap onto the same clock, as the local `Date` does. Time zones and daylight-saving shifts are not modelled.
- AdminPrescriptions.FilterRecords: the date filter compares a record's `createdOnDate`, its `toISOString` date taken as a field, because parsing `createdOn` strings is left out.
- Calendar.YearText renders only years 0 to 9999 as `toISOString` does. The six-digit extended years are not modelled, because dates that far out are not reachable from the calendar's navigation.
- DoctorSchedule.CalendarDays: each cell's `dateStr` is the ISO string of its local date, and today's date is passed in, already in UTC. The shift that `toISOString` applies to a locally built date is noted under Observations and is not modelled.
- PatientTickets.Listed sorts ties as the corrected comparator does. The comparator at src/dash/User/MyTickets.tsx:134-138 answers -1 for equal keys both ways round. ECMAScript leaves the order an inconsistent comparator produces implementation-defined, so the tie order promised here belongs to the corrected program (Findings, first row).
- AdminAppointments.Listed: the date column compares the `apDate` text, where src/dash/Admin/ViewAppointments.tsx:61-63 compares `new Date(apDate)` values. The two orders agree when every `apDate` is a zero-padded `YYYY-MM-DD` date with a four-digit year (AdminAppointments.InitialViewCalendarOrder), and the model assumes that form. On other text, such as `2024-3-5` against `2024-10-01`, they can differ. Parsing date text as `Date` does is left out.
- AdminAppointments.Listed sorts ties as the corrected comparator does, for the same reason, because src/dash/Admin/ViewAppointments.tsx:82-86 has the same comparator (Findings, second row).
- The browser's sanitising of email input values, which strips leading and trailing white space, is not modelled: the typed text is the value. The register page's button is also disabled while a registration is in flight; that loading flag is left out with the other network flags.
- Booking.PickedDateNotBeforeToday: `min` bounds only the picker. A date typed before today still reaches `onChange`, and SetDate takes it. The clock is a parameter: `today` is the UTC calendar date, because `toISOString` renders the `min` text. Years outside 0 to 9999 are not modelled.
- Complaints.Capped and Complaints.RemainingChars count length in code points. `maxLength` and `.length` count UTF-16 code units. The two agree on text with no character beyond U+FFFF; above it, the page caps sooner and shows a smaller remaining count.
- Invalid `Date` values and `NaN` timestamps in sorts and relative dates are not modelled; timestamps are integers.
- The static pages, the analytics screen, the API endpoint files other than the prescription tags, and the verify page hold no decision logic and are not part of this model.

## Findings

| source | as written | input that shows it | evidently intended | confidence | as-written member | corrected member |
|---|---|---|---|---|---|---|
| src/dash/User/MyTickets.tsx:134-138 | the comparator answers `aVal > bVal ? 1 : -1` (or the mirror for descending), so two equal keys compare as -1 both ways round | two tickets with the same subject sorted by subject: compare(a, b) = compare(b, a) = -1 | answer 0 on equal keys, making it a consistent comparator; PatientTickets.Listed sorts with it | medium, not executed | Sorting.CompareAsWrittenTies | Sorting.CompareConsistent |
| src/dash/Admin/ViewAppointments.tsx:82-86 | the same inconsistent comparator for every column of the appointments table | two appointments on the same date under the default date sort | answer 0 on equal keys; AdminAppointments.Listed sorts with the consistent comparator | medium, not executed | Sorting.CompareAsWritten | Sorting.Compare |
| src/dash/Admin/AdminTicktes.tsx:26-28 | the filter reads the raw response instead of the unwrapped list, so it calls `filter` on an object | a response `{ data: [t] }`: the counters show 1 ticket and the table filter throws | filter the unwrapped `complaints` list | high, not executed | Tickets.WrappedResponseBreaksFilter | Tickets.FilteredTickets |
| src/dash/Admin/ViewPrescriptions.tsx:206 | editing a filter keeps the current page, unlike `clearFilters`; the same holds for the edits at lines 164, 180 and 194 | eleven records, page 2, typing the date of the only match: the page slice is empty and the pager is hidden | reset to page 1 on every filter edit, as AdminPrescriptions.SetDateFilterCorrected and the three other corrected edits do | high, not executed | AdminPrescriptions.StalePageHidesMatch | AdminPrescriptions.FilterEditShowsMatches |
| src/dash/Doctor/DoctorSchedule.tsx:116-126 | `setMonth(getMonth() ± 1)` on the whole date keeps the day of the month, which overflows into the month after | on 31 January 2024 "next" shows March; on 31 March "previous" stays in March | move the shown month by exactly one | high, not executed | Calendar.MonthOverflow | Calendar.NavigateMonthInverse |
| src/dash/User/Viewdoctors.tsx:77-80 | the failure notice reads the mutation's `error` captured at click time, not the caught `err`; Booking.Settle shows this notice | a first booking refused with a server message: the fixed fallback text is shown | show the caught error's server message | medium, not executed | Booking.StaleErrorHidesServerMessage | Booking.FailureNotice |

## Observations

These behaviours of the source look unintended. Except where an item says otherwise, the model keeps them as written and states them as properties:

- A missing payment reads "unpaid" in the administrator's appointment table but is not listed under the "unpaid" payment filter (AdminAppointments.MissingPaymentHiddenByUnpaidFilter).
- Creating a prescription does not refresh the cached by-user and by-doctor-and-user queries (PrescriptionCache.CreateSkipsScopedQueries).
- A signed-in user of any other role lands on `/user/dashboard` and is offered no sidebar link (Navigation.LandingAgreesWithSidebar).
- On the doctor's appointment and schedule screens, an appointment without a status is shown and filtered as "pending" yet offers no confirm button (DoctorAppointments.PendingFilterWithoutConfirm, DoctorSchedule.MissingStatusNotConfirmable).
- In the routed copy, opening the booking dialog from a doctor card keeps the date and time chosen earlier (Booking.ChooseDoctor). That copy's native `<dialog>` can be dismissed with the Escape key without calling `closeModal`, so a draft can survive into the next opening. The dashboard copy closes only through `closeModal`, which clears the draft (Booking.CloseForgetsDraft), so there the kept draft is always empty.
- The patient's payment tab "PENDING" selects payments whose status is "unpaid" (Payments.TabNames).
- The doctor's calendar builds each day as a local date (`new Date(y, m, d)`, midnight local time) but names it with `toISOString`, which is in UTC. East of Greenwich that is the previous day, so every cell's `dateStr`, its appointment count and the date a click selects belong to the day before. The "today" flag, compared with the UTC date of the present moment, then usually marks the cell after today. This shift is not modelled: the model names each cell by its local date (DoctorSchedule.CalendarDays, see Left out).
- The doctor's prescription screen accepts a by-doctor reply that is a bare array or wraps the list in `data`. The cache tags read only the `prescriptions` field, so such a reply provides the list tag alone, and updating a prescription shown from it does not refetch it (PrescriptionCache.ByDoctorTags).
