# Planner core in Dafny

This project models the core of a Django personal planner: categories, tasks, events,
habits and habit check-ins that each belong to one user. Every user has one "Inbox"
category. It catches work that has no category, and it cannot be edited or deleted.

The project models the following:

- **Records** (`Models`). The records, their choice fields and their defaults. The
  database constraints: `(owner, name)` is unique for categories and for habits, and
  `(habit, performed_at)` is unique for check-ins. What a delete does to dependent rows:
  `SET_NULL` for tasks and events, `CASCADE` for check-ins. A check-in's save cuts its
  time to the minute.
- **Database** (`Models.Tables`, `Models.Db`). The database is a value, `Tables`.
  `TablesValid` is the invariant the constraints give it. Each write the model covers is
  a transition function on `Tables`, proved to keep that invariant: the inbox
  get-or-create, the inserts of tasks, events, habits and check-ins, the category and
  habit deletes, and the delete view's bulk updates. `Db` is a class holding the tables
  as fields. Its methods update those fields and are proved equal to the transition
  functions.
- **Form cleaning** (`Forms`):
  - the event end/start check;
  - the habit name check, stripped and compared without case against the user's other
    habits;
  - the normalisation of preferred times: validated `H:MM` items, deduplicated and sorted
    as text;
  - the reminder rules;
  - the comma-separated round trip of weekday and month selections, and the habit form's
    save, which inserts a new habit;
  - the check-in minute-duplicate check.
- **Template filters** (`HabitExtras`): `weekday_labels`, `month_labels` and
  `time_labels`, which turns a 24-hour time into a 12-hour one.
- **Views** (`Views`):
  - the category delete view, its GET page and its three POST actions;
  - the edit queryset that leaves out the inbox;
  - task and event creation: building the form gets or creates the inbox, the event
    form refuses an end that is not after the start, and `form_valid` falls back to the
    inbox when no category is chosen;
  - the task list query, with its search, status filter and newest-first order.
- **Signals** (`Signals`): the signal handlers that make sure each user has an inbox.

`Text` holds the Python string operations the core relies on: `str.strip`,
`str.split`, `str.join`, `int()` on a string, code-point ordering of strings and
case-insensitive comparison. `Collections` holds a generic filter and pairwise-distinctness
helpers.

Where the code and its documentation disagree, the model follows the code:

- `target_count` is a `PositiveIntegerField`, which accepts 0. `Habit.targetCount` is
  therefore a `nat`, not a positive number.
- `time_labels` only falls back to the raw text when `split(":")` or `int()` raises. A
  twelve-hour text such as `"08:00 PM"` (the demo-data generator stores one) splits
  cleanly, and its hour parses. It is shown as `"8:00 PM AM"`
  (`HabitExtras.TwelveHourTextGetsSecondMeridiem`), not passed through unchanged.
- Preferred times are deduplicated and sorted as strings, not as times. `"8:00"` sorts
  after `"20:00"`, and `"8:00"` and `"08:00"` are both kept.
- The delete view's GET builds its list of other categories lazily. The list is read
  after the inbox get-or-create has run, so a freshly created inbox appears in it.
- A POST with `action=move` to an unknown target answers 404. The inbox get-or-create
  has already run by then, so the inbox may have been created.
- Moving rows to the category being deleted leaves them with no category, because the
  delete then sets their category to null.
- The forms decide whether they edit a saved record with Python's truth test on
  `instance.pk`, so a key of 0 counts as unsaved (`Forms.IsSaved`). The database never
  assigns 0: `Db` starts its keys at 1.

## Model

| member | source | states |
|---|---|---|
| Models.TruncateToMinute | main/models.py:186-189 | seconds and microseconds become 0; every other component is unchanged |
| Models.BeforeIsStrictTotalOrder | main/models.py:62-65 | the timestamp order used for `created_at` and the date checks is irreflexive, transitive and total |
| Models.ParseFrequency | main/models.py:114-125 | the stored codes of `Frequency` parse back to exactly their choice, and nothing else parses |
| Models.ParseRepeat | main/models.py:142-153 | the stored codes of `ReminderRepeat` parse back to exactly their choice, and nothing else parses |
| Models.ParsePriority | main/models.py:27-30 | the priority values 1..3 map back to exactly their choice |
| Models.NewCategory | main/models.py:6-19 | a new category is not the inbox (`is_inbox` defaults to false) and has the given name and owner |
| Models.NewTaskFields | main/models.py:53-62 | a new task has medium priority (2), status "todo", no due date and no estimate |
| Models.NewHabit | main/models.py:105-158 | a new habit is active, daily, with target 1, reminders off, repeat "none" and empty preferences, and its reminder fields are consistent |
| Models.NewCheckin | main/models.py:167-174 | a new check-in is marked done |
| Models.InboxesOf | main/views.py:173-179 | holds exactly the user's categories marked as the inbox |
| Models.GetOrCreateInboxKeepsValid | main/views.py:173-179 | the inbox get-or-create keeps every table constraint, including unique `(owner, name)` |
| Models.SetNullCategory | main/models.py:42-48 | rows that pointed at the deleted category point nowhere; every other row and field is unchanged |
| Models.DeleteCategoryOutcome | main/models.py:80-86 | deleting a category removes exactly it and nulls the category of its tasks and events; habits and check-ins are untouched |
| Models.DeleteCategoryKeepsValid | main/models.py:42-48 | deleting a category leaves no task or event pointing at a missing category |
| Models.DeleteHabitOutcome | main/models.py:168-172 | deleting a habit removes it and exactly its check-ins (cascade) and nothing else |
| Models.DeleteHabitKeepsValid | main/models.py:168-172 | after the cascade, every check-in still names an existing habit |
| Models.RemoveRows | main/views.py:211-213 | the rows left are exactly those not owned by the user in that category |
| Models.MoveRows | main/views.py:215-218 | the user's rows in the category point at the target; all others, and all other fields, are unchanged |
| Models.RemoveCategoryRowsKeepsValid | main/views.py:208-213 | the bulk delete keeps the table invariant |
| Models.MoveCategoryRowsKeepsValid | main/views.py:215-223 | the bulk update to an existing category keeps the table invariant |
| Models.SaveTaskKeepsValid | main/views.py:86-98 | saving a task keeps the table invariant |
| Models.SaveEventKeepsValid | main/views.py:272-284 | saving an event keeps the table invariant |
| Models.SaveCheckinKeepsValid | main/models.py:178-189 | saving a check-in keeps `uniq_habit_performed_at` and minute resolution |
| Models.SaveCheckinStores | main/models.py:186-189 | a check-in is stored at its time cut to the minute, exactly when its habit exists and the minute is free; otherwise nothing changes |
| Models.SaveHabitKeepsValid | main/models.py:158 | inserting a new habit keeps the table invariant, `(owner, name)` unique among habits included |
| Models.SaveHabitStores | main/forms.py:214-215 | a new habit is stored with its fields as given under a fresh key, exactly when its owner has no habit of that exact name; otherwise the save raises IntegrityError and nothing changes |
| Models.Db.GetOrCreateInbox | main/views.py:173-179 | updates the stored tables exactly as the get-or-create transition and keeps the invariant |
| Models.Db.DeleteCategory | main/models.py:42-48 | updates the stored tables exactly as the category delete and keeps the invariant |
| Models.Db.DeleteHabit | main/models.py:168-172 | updates the stored tables exactly as the cascading habit delete and keeps the invariant |
| Models.Db.RemoveCategoryRows | main/views.py:211-213 | updates the stored tables exactly as the bulk delete and keeps the invariant |
| Models.Db.MoveCategoryRows | main/views.py:215-223 | updates the stored tables exactly as the bulk update and keeps the invariant |
| Models.Db.SaveTask | main/views.py:98 | updates the stored tables exactly as a task save and keeps the invariant |
| Models.Db.SaveEvent | main/views.py:284 | updates the stored tables exactly as an event save and keeps the invariant |
| Models.Db.SaveCheckin | main/models.py:186-189 | updates the stored tables exactly as a check-in save and keeps the invariant |
| Models.Db.SaveHabit | main/forms.py:214-215 | updates the stored tables exactly as a new habit's save and keeps the invariant |
| Forms.EventEndError | main/forms.py:54-63 | an error exactly when both times are given and the end is not after the start, with the form's message |
| Forms.NameQuerySet | main/forms.py:142-147 | the habits compared against are exactly the user's, minus the one being edited when its key is non-zero (Python's truth test on `pk`) |
| Forms.CleanName | main/forms.py:137-152 | accepted exactly when the stripped name is non-empty and no other habit of the user (the edited one excluded only when its key is non-zero) has it up to case; the value is the stripped name; "Name is required." exactly for a blank name |
| Forms.AcceptedNameIsFree | main/forms.py:137-152 | an accepted name differs from the name of every other habit of the user |
| Forms.KeyZeroClashesWithItself | main/forms.py:146-147 | a habit whose key is 0 counts as unsaved, so editing it and keeping its name is refused as a duplicate |
| Forms.CaseOnlyDifferenceIsDuplicate | main/forms.py:149-150 | " training " is refused as a duplicate when "Training" exists |
| Forms.AllClockTimesMembers | main/forms.py:161-169 | the item-by-item check passes exactly when every item is a valid time |
| Forms.SortedSet | main/forms.py:172 | the result is strictly sorted and has exactly the members of the input |
| Forms.CleanPreferredTimes | main/forms.py:154-173 | fails exactly when some item of the stripped input is not an `H:MM` time with hour 0..23 and minute 0..59 |
| Forms.PreferredTimesBlank | main/forms.py:155-157 | a blank input is stored as the empty string |
| Forms.PreferredTimesRejectsBadItem | main/forms.py:161-169 | any invalid item is refused with the form's message |
| Forms.PreferredTimesValue | main/forms.py:159-173 | the stored value is the sorted set of items joined by "," |
| Forms.PreferredTimesNormalised | main/forms.py:154-173 | the stored items are strictly sorted, valid, and exactly the distinct input items |
| Forms.PreferredTimesIdempotent | main/forms.py:154-173 | cleaning a stored value again gives it back unchanged |
| Forms.PreferredTimesOrder | main/forms.py:172 | two input items are stored in code-point order |
| Forms.EightIsStoredAfterTwenty | main/forms.py:172 | "8:00" is stored after "20:00" |
| Forms.PreferredTimesDedupIsTextual | main/forms.py:172 | the number stored is the number of textually distinct items |
| Forms.DigitClock | main/forms.py:163-167 | a `DD:DD` text is a time exactly when its hour is at most 23 and its minute at most 59 |
| Forms.EightOClock | main/forms.py:163-167 | a one-digit hour is accepted |
| Forms.TimesOfTheExamples | main/forms.py:163-167 | "08:00", "20:00" and "23:59" are accepted; "24:00" and "12:60" are not |
| Forms.HabitClean | main/forms.py:175-207 | joins both selections; reports a start error, a repeat error and an until error exactly in their cases, once each, with their messages, and drops each errored field from the cleaned data; no error exactly when the reminder rules hold |
| Forms.AcceptedRemindersAreConsistent | main/forms.py:189-200 | a habit saved from an accepted form satisfies the reminder invariant |
| Forms.SaveSelections | main/forms.py:209-216 | only the two selection fields change; an empty selection is stored as "" |
| Forms.SelectionRoundTrip | main/forms.py:131-135 | for a saved habit, splitting a stored join of valid codes gives back the codes; "" or an instance without a non-zero key gives no initial value |
| Forms.SavedSelectionRoundTrip | main/forms.py:212-213 | a saved selection is shown again as the same codes when the form is reopened, unless the habit's key is 0 |
| Forms.AcceptedHabitSaves | main/forms.py:209-216 | a new habit whose name the form accepted for its owner is inserted with its joined selections, and the tables keep every constraint |
| Forms.UncommittedSaveWritesNothing | main/forms.py:209-216 | with `commit=False` the habit comes back with its joined selections and nothing is written |
| Forms.CleanPerformedAt | main/forms.py:231-247 | the accepted time is cut to the minute; refused with the form's message exactly when another check-in of the habit (the edited one excluded only when its key is non-zero) is at that minute |
| Forms.SameMinuteIsRefused | main/forms.py:231-247 | after a check-in is saved, any time in the same minute is refused |
| Forms.TwelveOhFiveAndTwelveOhFortyFive | main/forms.py:234-246 | 12:00:45 is refused after a check-in at 12:00:05 |
| Forms.AcceptedTimeSaves | main/models.py:178-189 | a time the form accepts does not break the database constraint on save |
| HabitExtras.ItemLabels | main/templatetags/habit_extras.py:25-26 | one label per item, in order, from the map or the code itself |
| HabitExtras.Labels | main/templatetags/habit_extras.py:21-33 | an empty value shows as "" |
| HabitExtras.WeekdayLabels | main/templatetags/habit_extras.py:21-26 | an empty value shows as "" |
| HabitExtras.MonthLabels | main/templatetags/habit_extras.py:28-33 | an empty value shows as "" |
| HabitExtras.LabelsOfStoredCodes | main/templatetags/habit_extras.py:25-26 | a stored join of codes shows as their labels joined by ", " |
| HabitExtras.WeekdayMapAgreesWithChoices | main/templatetags/habit_extras.py:5-13 | every weekday choice of the form has the same label in the filter's map |
| HabitExtras.MonthMapAgreesWithChoices | main/templatetags/habit_extras.py:15-19 | every month choice of the form has the same label in the filter's map |
| HabitExtras.ChoiceCodesAreTrimmed | main/templatetags/habit_extras.py:25 | choice codes survive the split and strip unchanged |
| HabitExtras.SavedWeekdaysDisplay | main/templatetags/habit_extras.py:21-26 | saved weekdays are shown with the labels the form offered, in the order chosen |
| HabitExtras.SavedMonthsDisplay | main/templatetags/habit_extras.py:28-33 | saved months are shown with the labels the form offered, in the order chosen |
| HabitExtras.TwelveHour | main/templatetags/habit_extras.py:49-51 | the hour is in 1..12 and agrees with the 24-hour hour modulo 12 |
| HabitExtras.TimeItemLabels | main/templatetags/habit_extras.py:43-54 | one output per item |
| HabitExtras.TimeLabels | main/templatetags/habit_extras.py:35-55 | the loop builds the joined labels of the items; an empty value shows as "" |
| HabitExtras.TimeItemLabelsAt | main/templatetags/habit_extras.py:44-54 | the i-th output is the label of the i-th item |
| HabitExtras.TwelveHourClockFace | main/templatetags/habit_extras.py:48-52 | hours 0 and 12 show as 12, hours 13..23 lose 12, hours from 12 up are PM |
| HabitExtras.TimeLabelOfParts | main/templatetags/habit_extras.py:46-52 | an `hh:mm` whose hour parses is shown as twelve-hour hour, the minute text unchanged, and the meridiem |
| HabitExtras.TimeLabelOfClockTime | main/templatetags/habit_extras.py:46-52 | a valid time is shown in twelve-hour form |
| HabitExtras.StoredTimesDisplay | main/templatetags/habit_extras.py:42-55 | every stored preferred time is shown in twelve-hour form |
| HabitExtras.TimeLabelWithoutColon | main/templatetags/habit_extras.py:53-54 | an item without ":" is shown unchanged |
| HabitExtras.TimeLabelOfNonIntegerHour | main/templatetags/habit_extras.py:47-54 | an item whose hour does not parse is shown unchanged |
| HabitExtras.TimeLabelOfManyColons | main/templatetags/habit_extras.py:46-54 | an item with two or more colons is shown unchanged |
| HabitExtras.MorningLabel | main/templatetags/habit_extras.py:38 | "08:00" shows as "8:00 AM" |
| HabitExtras.EveningLabel | main/templatetags/habit_extras.py:38 | "20:00" shows as "8:00 PM" |
| HabitExtras.DocumentedExample | main/templatetags/habit_extras.py:37-39 | "08:00,20:00" shows as "8:00 AM, 8:00 PM" |
| HabitExtras.TwelveHourTextGetsSecondMeridiem | main/templatetags/habit_extras.py:46-52 | "08:00 PM" shows as "8:00 PM AM" |
| Signals.InboxOutcomeIsInbox | main/signals.py:8-13 | a successful get-or-create leaves a stored inbox of the user's |
| Signals.InboxOutcomeErrors | main/signals.py:9-13 | fails with MultipleObjectsReturned exactly when there are several inboxes, and with IntegrityError exactly when there is none but "Inbox" is taken; a failure changes nothing |
| Signals.ExistingInboxIsKept | main/signals.py:9-13 | an existing inbox means no write |
| Signals.FoundInboxIsInbox | main/signals.py:9-13 | a found inbox is one of the user's inboxes |
| Signals.NewInboxShape | main/signals.py:9-13 | otherwise one category named "Inbox", marked as the inbox, is added with the next id |
| Signals.InboxNameTakenFails | main/signals.py:9-13 | a non-inbox "Inbox" category blocks the creation with an integrity error |
| Signals.InboxIdempotent | main/signals.py:8-13 | running the get-or-create twice is the same as once |
| Signals.EnsureInboxForUser | main/signals.py:8-13 | the handler performs the get-or-create and reports its error |
| Signals.CreateInboxCategory | main/signals.py:16-19 | the handler acts only for a newly created user |
| Signals.EnsureInboxEstablishes | main/signals.py:8-13 | after a successful run the user has an inbox and a second run writes nothing |
| Views.GetCategory | main/views.py:170-171 | finds the user's category with that key, or nothing exactly when none exists |
| Views.GetCategoryFinds | main/views.py:170-171 | a stored category is always found by its key and owner |
| Views.EditableCategories | main/views.py:162-164 | exactly the user's categories other than the inbox |
| Views.InboxIsNotEditable | main/views.py:162-164 | the inbox is never offered for editing |
| Views.CategoryDeleteGet | main/views.py:181-195 | the GET handler updates the database and answers exactly as its specification function |
| Views.CategoryDeletePost | main/views.py:197-226 | the POST handler updates the database and answers exactly as its specification function |
| Views.PostDisposes | main/views.py:197-209 | for a deletable category, the POST first makes sure an inbox exists and changes no task or event doing so |
| Views.InboxCannotBeDeleted | main/views.py:181-201 | GET and POST on the inbox redirect to its page and change nothing |
| Views.UnknownCategoryIsNotFound | main/views.py:170-171 | another user's or a missing category answers 404 and changes nothing |
| Views.DeleteGetShowsOptions | main/views.py:188-195 | the page shows the category, exactly the user's other categories, and the user's inbox |
| Views.DeleteAllRemovesRows | main/views.py:211-213 | "delete_all" removes exactly the user's tasks and events in the category, then the category |
| Views.MoveReassignsRows | main/views.py:215-218 | "move" reassigns exactly those rows to the target, then deletes the category |
| Views.MoveToItselfNullsRows | main/views.py:215-225 | moving to the category itself leaves those rows without a category |
| Views.BadTargetMovesNothing | main/views.py:215-216 | a missing or foreign target answers 404 and moves nothing |
| Views.OtherActionMovesToInbox | main/views.py:220-223 | any other action moves the rows to the user's inbox |
| Views.MoveThenDeleteIsMovedTo | main/views.py:215-225 | the update followed by the delete moves exactly the user's rows in the category |
| Views.RemoveThenDeleteIsRemovedFrom | main/views.py:211-225 | the bulk delete followed by the category delete removes exactly the user's rows in the category |
| Views.DeletedCategoryIsGone | main/views.py:225 | after a successful POST the category is gone and every other category remains |
| Views.DisposeKeepsValid | main/views.py:211-225 | disposing of the rows and deleting the category keeps the table invariant |
| Views.DeletePostKeepsValid | main/views.py:197-226 | the whole POST keeps the table invariant |
| Views.TaskCreate | main/views.py:86-98 | `form_valid` updates the database and answers exactly as its specification function |
| Views.EventCreate | main/views.py:272-284 | `form_valid` updates the database and answers exactly as its specification function |
| Views.TaskWithoutCategoryGoesToInbox | main/views.py:89-96 | a task created without a category is stored in the user's inbox with the given fields |
| Views.EventWithoutCategoryGoesToInbox | main/views.py:275-282 | an event created without a category is stored in the user's inbox with the given fields |
| Views.TaskWithCategoryKeepsIt | main/views.py:86-98 | in `form_valid`, a task created with a category keeps it, and `form_valid` creates no inbox |
| Views.TaskCreateRequest | main/forms.py:14-27 | the whole request, form construction then `form_valid`, updates the database and answers exactly as its specification function |
| Views.EventCreateRequest | main/forms.py:39-63 | the whole request (form construction, the end/start check, then `form_valid`) updates the database and answers exactly as its specification function |
| Views.EventRequestEndNotAfterStartStoresNoEvent | main/forms.py:54-63 | an event whose end is given and not after its start is refused with "End time must be after start time." and no event or task is stored; only the form's inbox may be new |
| Views.TaskRequestInboxErrorStoresNothing | main/forms.py:20-26 | when the form's inbox get-or-create fails, the request is a server error and stores nothing, even with a category chosen |
| Views.EventRequestInboxErrorStoresNothing | main/forms.py:45-51 | when the form's inbox get-or-create fails, the request is a server error and stores nothing |
| Views.TaskRequestWithoutCategoryUsesFormInbox | main/views.py:89-96 | without a category, the task is appended in exactly the inbox the form found or created, with no second inbox |
| Views.EventRequestWithoutCategoryUsesFormInbox | main/views.py:275-282 | without a category, an event that passes the end/start check is appended in exactly the inbox the form found or created, with no second inbox |
| Views.TaskRequestWithCategoryStillEnsuresInbox | main/forms.py:20-26 | with a category chosen, the task keeps it, and the user still ends up with an inbox |
| Views.InsertByCreated | main/views.py:44 | inserting keeps newest-first order and adds exactly one task |
| Views.SortNewestFirst | main/views.py:44 | the result is a permutation of the input, newest first |
| Views.TaskListContents | main/views.py:43-55 | the list holds exactly the user's tasks that match the stripped search and status, each once, newest first |
| Views.BlankFiltersListAllOwnTasks | main/views.py:46-53 | blank filters list all of the user's tasks |

## Left out

- Authentication, login redirects, URL routing, templates, the admin, messages and the
  demo-data management command: none of them decide what is stored.
- Time zones and the clock. Times are plain field tuples, and `created_at` and "now" are
  inputs.
- Concurrency. Each request runs alone against a value of the database, so races between
  two get-or-creates are not modelled.
- Field length validators (`max_length`) and the HTML widget parsing of dates and numbers.
  The cleaned values are inputs.
- `HabitCreateView` as a request of its own. Its `form_valid` only sets the instance's
  owner to the requesting user, which `Forms.AcceptedHabitSaves` takes as the habit's
  owner, and then calls the form's save.
- Update views, other than the edit queryset. No transition rewrites an existing task,
  event, habit or check-in, so saving an edited record, and the constraints it could
  break, are not modelled.
- The form's restriction of the category choice to the user's own categories
  (main/forms.py:18 and 43). The chosen category is an input, and the form's refusal of a
  foreign one is not modelled. The inbox get-or-create in those constructors is modelled,
  as part of `Views.TaskCreateRequest` and `Views.EventCreateRequest`. The create page's
  GET, which builds the same form and so runs the same get-or-create, is not modelled as
  a request of its own.
- Scheduling or sending of reminders. The code only stores the reminder fields.
- Category list ordering by name, and the template-side use of other querysets.
- A non-numeric `target_category` in the delete POST. Django raises an error there, and
  the model takes the target as an optional integer, where a missing value answers 404.
- Views.TaskListContents: the order among tasks with equal `created_at` is left to the
  database and not stated.
- Forms.CleanName: case-insensitive comparison folds ASCII letters only. Python's and the
  database's folding of other letters is not modelled.
- Forms.CleanPreferredTimes: `int()` is modelled for an optional sign, surrounding
  whitespace and ASCII digits. Underscores between digits and non-ASCII digits, which
  Python also accepts, are not modelled.
- Forms.CleanPreferredTimes: its own contract states only when it fails. The message, the
  stored value and its properties are stated by `Forms.PreferredTimesRejectsBadItem`,
  `Forms.PreferredTimesValue` and `Forms.PreferredTimesNormalised`.
- HabitExtras.WeekdayLabels: its own contract covers only the empty value. The display
  of saved weekdays, each code by its label in order, is stated by
  `HabitExtras.SavedWeekdaysDisplay` and `HabitExtras.LabelsOfStoredCodes`.
- HabitExtras.MonthLabels: its own contract covers only the empty value. The display of
  saved months is stated by `HabitExtras.SavedMonthsDisplay` and
  `HabitExtras.LabelsOfStoredCodes`.
- HabitExtras.Labels: its own contract covers only the empty value. The display of
  stored codes is stated by `HabitExtras.LabelsOfStoredCodes`, for codes without
  surrounding spaces or commas, which is what the form stores.
- HabitExtras.TimeLabel: `str.split(":")` raising is modelled as not splitting into
  exactly two parts, and `int()` raising as `ParseInt` failing. `ParseInt` accepts an
  optional sign, surrounding whitespace and ASCII digits, so it differs from `int()` in
  three ways. It refuses underscores between digits (`"1_2:00"` is shown as "12:00 PM" by
  the code and unchanged by the model) and non-ASCII digits, and it accepts digit strings
  longer than 4300 digits, which `int()` refuses.
