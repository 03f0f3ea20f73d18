# Buckets: a verified model of the task, tag and bucket logic

Buckets is a React Native to-do app. Tasks are filed into *buckets*, which are
categories. Each task carries *tags*, and every tag has an *urgency* from 1 to
10. The *cue* screen lists the tasks that are due now, most urgent first. This
project models the core of the app in Dafny and proves properties of that
model:

- **Task store** (`TaskContext`, built on `Tasks`, `Calendar` and `Cue`):
  - add, remove, complete and reorder tasks;
  - the urgency score of a task, which is the mean urgency of its tag names;
  - the due-window filter and the descending sort behind `getSortedTasks`.

  Completing a task works in two ways:
  - a one-time task is removed;
  - a recurring task moves to its next occurrence: one day on (Daily), seven
    days on (Weekly), or `setMonth(getMonth() + 1)` (Monthly), which
    overflows into the month after when the day does not exist.

  The sort is specified as a stable descending sort:
  - the result is a permutation of the due tasks;
  - it is sorted by score;
  - tasks with equal scores keep store order;
  - `CueIsTheStableSort` proves that no other order meets all three.
- **Tag store** (`TagsContext`):
  - the ten seed tags;
  - append, merge-update by id, and remove by id.
- **Bucket store** (`BucketsContext`): append and remove by id.
- **Manage Tags screen** (`ManageTags`):
  - a new tag gets the trimmed name, the id `tag-<clock>` and urgency 5;
  - a blank name is rejected;
  - the urgency slider runs from 1 to 10 in steps of 1;
  - the slider's colour has three bands.
- **Add Bucket screen** (`AddBucket`):
  - a new bucket gets the trimmed name, the id `bucket-<clock>` and a task
    count of 0;
  - a blank name stays on the screen.
- **Task wizard** (`TaskWizard`):
  - three steps: Next on steps 1 and 2, Save on step 3, and one Back button
    from step 2 on;
  - the initial state comes from the task being edited, or from defaults;
  - tapping a tag toggles it;
  - the frequency choice offers Daily, Weekly and Monthly;
  - the date picker;
  - the six-field record that Save hands back.

Dates are instants in milliseconds. The calendar is the proleptic Gregorian
calendar in UTC. `Calendar.ToCivil`, `FromCivil`, `SetDate` and `SetMonth`
follow the ECMAScript day and month arithmetic, including the carry into later
months. A `null` start date is `None`. The code reads it as `new Date(null)`,
which is the epoch.

Each store is a class:
- its list is a `seq` field;
- each operation is a method that `modifies` the store;
- each method's `ensures` ties the new list to a pure function of the old one;
- the properties are proved as lemmas about those functions.

Some consequences of the code as written, all proved below:
- A recurring task saved before a frequency was chosen is never due, and
  completing it leaves its date unchanged (`UnchosenFrequencyIsInert`).
- The Monthly rule compares only day of month and month index, never the year.
  It shows every Monthly task of this month, past days included, whenever
  today plus ten days is still in this month (`MonthlyWindowWithinMonth`).
- A one-time task saved without a date is dated at the epoch, so it is always
  due.
- Removing an id removes *every* entry with that id. Completing a recurring
  task replaces every entry with that id by the first one, advanced.

## Model

| member | source | states |
|---|---|---|
| Seqs.Filter | app/context/TaskContext.js:59 | `Array.prototype.filter`: the result keeps exactly the elements of the input that satisfy the predicate, and is no longer |
| Seqs.FilterAppend | app/context/TaskContext.js:59 | filtering distributes over concatenation, so kept elements keep their relative order |
| Seqs.FilterMultiset | app/context/TaskContext.js:127-165 | a filter keeps every copy of each value that passes and none of a value that fails |
| Seqs.FilterDropsShortens | components/TaskWizard.js:74 | a filter that rejects an element present in the input returns a strictly shorter list |
| Seqs.FilterNoDup | components/TaskWizard.js:74 | filtering a duplicate-free list leaves it duplicate-free |
| JsString.Trim | app/manage-tags.js:29-32 | `String.prototype.trim`: the result is a contiguous slice of the input with only white space cut at both ends, has no white space at either end, and is empty exactly when the input is all white space |
| JsString.TrimIdempotent | app/manage-tags.js:32 | trimming a trimmed name changes nothing |
| JsString.Decimal | app/manage-tags.js:31 | the decimal rendering of `Date.now()` in an id: digits only, no leading zero, and its value is the number |
| Calendar.ToCivil | app/context/TaskContext.js:150-152 | `getDate`/`getMonth`: every instant has a valid year, month, day and time of day that denote it |
| Calendar.FromCivil | app/context/TaskContext.js:79-86 | the instant of a year, month, day and time of day: with a month in 0..11 it is the day number times the length of a day plus the time, and a time within one day is the remainder modulo a day |
| Calendar.MonthCarry | app/context/TaskContext.js:85 | a month index twelve past the end counts as the same month of the following year |
| Calendar.DayOfMonth | app/context/TaskContext.js:150-152 | `getDate`: the day of the month lies from 1 to the length of the instant's month |
| Calendar.MonthIndex | app/context/TaskContext.js:156-159 | `getMonth`: the month index lies in 0..11 |
| Calendar.SetDate | app/context/TaskContext.js:81-83 | `setDate(d)`: for a day within the current month, the instant reads back with that day and the same year, month and time of day |
| Calendar.SetMonth | app/context/TaskContext.js:85 | `setMonth(m)`: for a month in 0..11 that has the current day, the instant reads back with that month and the same year, day and time of day |
| Calendar.CivilRoundTrip | app/context/TaskContext.js:79-86 | building an instant from a valid civil date and reading it back gives that date |
| Calendar.YearAndDayUnique | app/context/TaskContext.js:150-152 | the year and day of year of an instant are unique |
| Calendar.MonthAndDayUnique | app/context/TaskContext.js:150-152 | the month and day of a day of year are unique |
| Calendar.SetDateShift | app/context/TaskContext.js:81 | `setDate(getDate() + n)` moves the instant by exactly n days, across month ends |
| Calendar.AddDaysCivil | app/context/TaskContext.js:123-125 | adding up to 28 days lands on the same or the next month, with the day carried past the month length |
| Calendar.SetMonthNextShift | app/context/TaskContext.js:85 | `setMonth(getMonth() + 1)` moves the instant by the length of the current month |
| Calendar.SetMonthNext | app/context/TaskContext.js:85 | `setMonth(getMonth() + 1)` keeps the day in the next month, or overflows into the month after by the excess days |
| Calendar.OverflowIntoFollowingMonth | app/context/TaskContext.js:85 | `MakeDay` with a day up to 28 past the end of a month reads back as that many days into the month after |
| TagsContext.InitialTags | app/context/TagsContext.js:6-17 | the seed is ten tags with pairwise distinct ids and urgencies from 1 to 10 |
| TagsContext.UpdatedTags | app/context/TagsContext.js:60-66 | `updateTag`: the tags with the patch's id have its fields merged in; every other tag, the order and the length stay |
| TagsContext.Merge | app/context/TagsContext.js:63 | `{ ...tag, ...updatedTag }`: the id comes from the patch; the name and the urgency come from the patch where it gives them and from the tag otherwise; an empty patch with the tag's id gives back the tag |
| TagsContext.UpdateAbsentIsNoOp | app/context/TagsContext.js:60-66 | an update for an unknown id changes nothing |
| TagsContext.UpdateIdempotent | app/context/TagsContext.js:60-66 | applying the same update twice is applying it once |
| TagsContext.RemovedTags | app/context/TagsContext.js:69-71 | `removeTag`: exactly the tags with another id remain |
| TagsContext.RemoveTagAbsentIsNoOp | app/context/TagsContext.js:69-71 | removing an unknown id changes nothing |
| TagsContext.RemoveTagIdempotent | app/context/TagsContext.js:69-71 | removing twice is removing once |
| TagsContext.RemoveTagKeepsOrder | app/context/TagsContext.js:69-71 | removal keeps the remaining tags in order |
| TagsContext.TagStore.constructor | app/context/TagsContext.js:20 | the store starts with the seed tags |
| TagsContext.TagStore.AddTag | app/context/TagsContext.js:55-57 | appends the tag as given, so the list grows by one |
| TagsContext.TagStore.UpdateTag | app/context/TagsContext.js:60-66 | the new list is the merge-update of the old one |
| TagsContext.TagStore.RemoveTag | app/context/TagsContext.js:69-71 | the new list is the old one without that id |
| BucketsContext.RemovedBuckets | app/context/BucketsContext.js:47-51 | `removeBucket`: exactly the buckets with another id remain |
| BucketsContext.RemoveBucketAbsentIsNoOp | app/context/BucketsContext.js:47-51 | removing an unknown id changes nothing |
| BucketsContext.RemoveBucketIdempotent | app/context/BucketsContext.js:47-51 | removing twice is removing once |
| BucketsContext.RemoveBucketKeepsOrder | app/context/BucketsContext.js:47-51 | removal keeps the remaining buckets in order |
| BucketsContext.AddThenRemoveRestores | app/context/BucketsContext.js:42-51 | adding a bucket with a fresh id and then removing that id restores the list |
| BucketsContext.BucketStore.constructor | app/context/BucketsContext.js:7 | the store starts empty |
| BucketsContext.BucketStore.AddBucket | app/context/BucketsContext.js:42-44 | appends the bucket as given, so the list grows by one |
| BucketsContext.BucketStore.RemoveBucket | app/context/BucketsContext.js:47-51 | the new list is the old one without that id |
| Tasks.RemovedTasks | app/context/TaskContext.js:56-61 | `removeTask`: exactly the tasks with another id remain |
| Tasks.RemoveTaskAbsentIsNoOp | app/context/TaskContext.js:56-61 | removing an unknown id changes nothing |
| Tasks.RemoveTaskIdempotent | app/context/TaskContext.js:56-61 | removing twice is removing once |
| Tasks.RemoveTaskKeepsOrder | app/context/TaskContext.js:56-61 | removal keeps the remaining tasks in order |
| Tasks.FirstIndex | app/context/TaskContext.js:65-70 | `tasks.find`: no position exactly when no task has the id, and otherwise the first position whose task has it |
| Tasks.NextOccurrence | app/context/TaskContext.js:79-86 | the date is one day later for Daily, seven days later for Weekly, and later by the length of the current month for Monthly. It is unchanged for any other recurrence |
| Tasks.Instant | app/context/TaskContext.js:79 | `new Date(startDate)`: a present date is its own instant, and `null` is the epoch, 0 |
| Tasks.Advanced | app/context/TaskContext.js:88-89 | `{ ...taskToUpdate, startDate: nextDate }`: every field but the start date is kept, the start date is the next occurrence, and for Daily, Weekly and Monthly it is strictly later |
| Tasks.MonthlyNextOccurrence | app/context/TaskContext.js:84-85 | a Monthly task is next due on the same day and time next month, or on the surplus day of the month after when next month is shorter |
| Tasks.ReplacedTasks | app/context/TaskContext.js:91-93 | `map`: each task with the id is replaced and every other task stays in place |
| Tasks.Completed | app/context/TaskContext.js:64-94 | `completeTask`: the list never grows, every task it holds with another id was there before, and every task with another id is still there |
| Tasks.CompleteUnknownIsNoOp | app/context/TaskContext.js:65-70 | completing an unknown id leaves the list unchanged |
| Tasks.CompleteOneTime | app/context/TaskContext.js:72-76 | completing a one-time task removes every task with its id and keeps the rest in order |
| Tasks.CompleteRecurring | app/context/TaskContext.js:78-93 | completing a recurring task keeps the length and every other task. Each task with its id becomes the first one found, with only `startDate` moved to the next occurrence |
| Tasks.CompleteRecurringInPlace | app/context/TaskContext.js:78-93 | with unique ids, only the completed task changes, in place, and only its date |
| Cue.UrgencyTable | app/context/TaskContext.js:118-121 | the tag-name table: every tag name is a key, each value is some tag of that name's urgency (0 becomes 1), and no value is 0 |
| Cue.TableUrgency | app/context/TaskContext.js:119 | `tag.urgency \|\| 1`: never 0, a non-zero urgency is kept, and an urgency in 0..10 gives a value in 1..10 |
| Cue.Lookup | app/context/TaskContext.js:109 | `tagUrgencyScores[tag] \|\| 1`: never 0, an unknown name counts 1, and a known non-zero value is kept |
| Cue.SumOfLookupsAppend | app/context/TaskContext.js:108-111 | the total of the lookups adds up over concatenated name lists |
| Cue.SumOfLookupsSnoc | app/context/TaskContext.js:108-111 | the `reduce` step: appending a name adds its lookup to the running total |
| Cue.UrgencyTableLastWins | app/context/TaskContext.js:118-121 | when names repeat, the last tag with a name decides its urgency |
| Cue.Score | app/context/TaskContext.js:106-113 | `calculateUrgencyScore`: 0 with no tags, otherwise the result times the number of tags is the sum of their urgencies, with 1 for an unknown name |
| Cue.SumOfLookupsBounds | app/context/TaskContext.js:108-111 | with every table value from 1 to 10, the sum over n tag names lies between n and 10n |
| Cue.UrgencyTableBounds | app/context/TaskContext.js:118-121 | tag urgencies from 0 to 10 give table values from 1 to 10 |
| Cue.ScoreBounds | app/context/TaskContext.js:106-113 | with table values from 1 to 10, a task with tags scores from 1 to 10 |
| Cue.ScoreWithinUrgencyRange | app/context/TaskContext.js:106-121 | with tag urgencies from 0 to 10 (0 counting as 1), a task with tags scores from 1 to 10 |
| Cue.DueTasks | app/context/TaskContext.js:127-165 | the filter: exactly the store's tasks that are not completed this session and are due |
| Cue.IsDue | app/context/TaskContext.js:130-164 | a one-time task is due when its date is not after now (a `null` date counting as the epoch); Daily is always due; Weekly is due exactly when its date lies from now to ten days on; a due Monthly task is in this month or the next; any other recurrence is never due |
| Cue.InCue | app/context/TaskContext.js:127-128 | a task completed this session is never in the cue; any other task is in it exactly when it is due |
| Cue.TenDaysLandsNearby | app/context/TaskContext.js:123-125 | today plus ten days falls in this month or the next one |
| Cue.MonthlyWindowWithinMonth | app/context/TaskContext.js:148-162 | when today plus ten days is still in this month, a Monthly task is due exactly when its month index is this month's |
| Cue.TenDaysIntoNextMonth | app/context/TaskContext.js:123-125 | when today plus ten days leaves this month, it lands in the next month on today's day plus ten minus this month's length |
| Cue.MonthlyWindowAcrossMonths | app/context/TaskContext.js:148-162 | when today plus ten days falls in the next month, a Monthly task is due exactly when it is from today to the end of this month, or in the next month up to the carried-over day |
| Cue.WithKey | app/context/TaskContext.js:167-171 | the tasks of a list that have a given score, in list order; a task is in it exactly when it is in the list with that score |
| Cue.InsertPermutes | app/context/TaskContext.js:167-171 | inserting into a list adds exactly that task to its multiset |
| Cue.ConsSorted | app/context/TaskContext.js:167-171 | a task scoring at least as much as the head of a descending list can be put in front |
| Cue.InsertSorted | app/context/TaskContext.js:167-171 | insertion keeps a list in descending score order |
| Cue.InsertStable | app/context/TaskContext.js:167-171 | insertion puts the task in front of every task with the same score, as it came first in the input |
| Cue.SortByKey | app/context/TaskContext.js:167-171 | `sort((a, b) => key(b) - key(a))`: the result is a permutation of the input, in descending order, and keeps input order among equal scores |
| Cue.StableSortIsUnique | app/context/TaskContext.js:167-171 | two descending lists with the same tasks for every score are equal |
| Cue.SortedTasks | app/context/TaskContext.js:116-171 | `getSortedTasks`: exactly the due tasks not completed this session, each as often as in the store, highest score first, ties in store order |
| Cue.CueCounts | app/context/TaskContext.js:127-171 | each task appears in the cue as often as in the store if it passes the filter, and never otherwise |
| Cue.CueIsTheStableSort | app/context/TaskContext.js:167-171 | any stable descending sort of the due tasks is the cue |
| TaskContext.TaskStore.constructor | app/context/TaskContext.js:13 | the store starts empty |
| TaskContext.TaskStore.AddTask | app/context/TaskContext.js:51-53 | appends the task as given |
| TaskContext.TaskStore.RemoveTask | app/context/TaskContext.js:56-61 | the new list is the old one without that id |
| TaskContext.TaskStore.CompleteTask | app/context/TaskContext.js:64-94 | the imperative branches (unknown id, one-time, recurring) produce the list described by `CompleteUnknownIsNoOp`, `CompleteOneTime` and `CompleteRecurring` |
| TaskContext.TaskStore.ReorderTasks | app/context/TaskContext.js:97-103 | an array replaces the list; anything else leaves it |
| TaskContext.TaskStore.GetSortedTasks | app/context/TaskContext.js:116-174 | the cue of the held tasks. Every task in it is held and not completed |
| ManageTags.NewTag | app/manage-tags.js:28-34 | no tag exactly when the typed name is blank. Otherwise the id is `tag-` plus the clock, the name is the trimmed and non-empty name, and the urgency is 5 |
| ManageTags.UrgencyChangeKeepsNames | app/manage-tags.js:40-42 | an urgency change sets the urgency of the tags with that id and keeps every id, name, position and the length |
| ManageTags.UrgencyPatch | app/manage-tags.js:41 | the patch `{ id, urgency: value }` carries the id and the urgency and no name, and merging it into a tag with that id changes only the urgency |
| ManageTags.ScreenKeepsUrgenciesInRange | app/manage-tags.js:28-42 | slider values (1 to 10, step 1) and new tags (urgency 5) keep every urgency within the slider's range |
| ManageTags.ScreenUrgenciesBoundScores | app/manage-tags.js:55-61 | with urgencies the slider allows, every tagged task scores from 1 to 10 in the cue |
| ManageTags.SliderBand | app/manage-tags.js:44-48 | green exactly up to 3, orange exactly from 4 to 6, red exactly above 6 |
| ManageTags.GetSliderColor | app/manage-tags.js:44-48 | the colour of the urgency's band, always one of the three |
| ManageTags.SliderBandMonotone | app/manage-tags.js:44-48 | a higher urgency never gets a cooler band |
| ManageTags.ManageTagsScreen.constructor | app/manage-tags.js:21-22 | the modal is closed and the name field empty |
| ManageTags.ManageTagsScreen.HandleAddTag | app/manage-tags.js:24-26 | opens the modal |
| ManageTags.ManageTagsScreen.SetNewTagName | app/manage-tags.js:103-108 | the field holds what was typed |
| ManageTags.ManageTagsScreen.Cancel | app/manage-tags.js:112-115 | closes the modal and clears the field |
| ManageTags.ManageTagsScreen.HandleSaveTag | app/manage-tags.js:28-38 | a blank name changes nothing. Otherwise the new tag is appended, the field is cleared and the modal closes |
| ManageTags.ManageTagsScreen.HandleUrgencyChange | app/manage-tags.js:40-42 | the store's list becomes the urgency update of the old one |
| AddBucket.NewBucket | app/add-bucket.js:11-18 | no bucket exactly when the typed name is blank. Otherwise the id is `bucket-` plus the clock, the name is the trimmed and non-empty name, and the task count is 0 |
| AddBucket.AddBucketScreen.constructor | app/add-bucket.js:8 | the name field starts empty |
| AddBucket.AddBucketScreen.SetBucketName | app/add-bucket.js:33-34 | the text input's `onChangeText` stores the typed text as the name |
| AddBucket.AddBucketScreen.HandleCreateBucket | app/add-bucket.js:11-25 | navigates back exactly when the name is not blank, and then exactly one bucket is appended. A blank name leaves the store unchanged |
| TaskWizard.Toggle | components/TaskWizard.js:71-77 | `toggleTag`: a selected name is removed (the list gets shorter and the other names stay), and an unselected name is appended |
| TaskWizard.ToggleTwiceRestores | components/TaskWizard.js:71-77 | tapping an unselected tag twice restores the selection |
| TaskWizard.ToggleKeepsNoDup | components/TaskWizard.js:71-77 | toggling never makes a name appear twice |
| TaskWizard.OfferedFrequenciesAdvance | components/TaskWizard.js:226-233 | every offered frequency moves a completed task strictly forward |
| TaskWizard.UnchosenFrequencyIsInert | components/TaskWizard.js:24-26 | a recurring task without an offered frequency is never due, and completing it keeps its date |
| TaskWizard.Wizard.constructor | components/TaskWizard.js:20-43 | the fields come from the edited task, or default to "", false, "", null, "" and no tags. The wizard starts on step 1 with nothing open |
| TaskWizard.Wizard.NextStep | components/TaskWizard.js:55 | from steps 1 and 2, where Next is shown (lines 98 and 162), moves one step on and stays within steps 1 to 3 |
| TaskWizard.Wizard.PrevStep | components/TaskWizard.js:56 | from steps after 1, where Back is shown (line 205), moves one step back and stays within steps 1 to 3 |
| TaskWizard.Wizard.ToggleTag | components/TaskWizard.js:71-77 | the selection becomes the toggle of the old one |
| TaskWizard.Wizard.SetRecurring | components/TaskWizard.js:116-126 | sets one-time or recurring |
| TaskWizard.Wizard.OpenFrequencyModal | components/TaskWizard.js:135 | opens the frequency modal |
| TaskWizard.Wizard.ChooseFrequency | components/TaskWizard.js:226-233 | sets the chosen offered frequency and closes the modal |
| TaskWizard.Wizard.OpenDatePicker | components/TaskWizard.js:143 | opens the date picker |
| TaskWizard.Wizard.HandleDateChange | components/TaskWizard.js:79-83 | a reported date replaces the start date, otherwise it is kept. The picker closes |
| TaskWizard.Wizard.HandleSave | components/TaskWizard.js:58-69 | the record holds exactly the six form fields, and the previous id is the edited task's, or null for a new task |

## Left out

- Persistence to AsyncStorage is not modelled. That covers loading on start, saving on change, and the JSON round trip. All of it is I/O.
- React state batching is not modelled, nor the stale `tasks` closure that `completeTask` reads. Each operation is modelled as one atomic update of the current list.
- The clock is a parameter. `Date.now()` and `new Date()` are the `now` argument of `NewTag`, `NewBucket`, `HandleSaveTag`, `HandleCreateBucket` and `SortedTasks`.
- Local time zones and daylight saving are not modelled. The calendar is UTC, so "day" and "month" are UTC days and months.
- ISO date strings are not modelled. Dates are instants, so the model has no string form, no invalid date, and no limit on the ECMAScript time range.
- Cue.Score: the score is an exact real number. Floating-point rounding of the sum and of the division is not modelled.
- Cue.UrgencyTable: the table is a map from name to urgency. A tag named after an inherited `Object.prototype` member, such as `constructor`, is not modelled as that member. Urgencies are integers, so NaN and `undefined` urgencies are not modelled either.
- Tasks.Task: `tags` is always a list. A missing `tags` property, which the score treats like an empty list, is modelled as the empty list.
- TagsContext.TagPatch: a patch carries only a name and an urgency. Fields that tags do not have are not modelled.
- The caller-side cascade and task creation are not part of this model. Deleting a bucket's tasks, giving a task its id and bucket, and the edit flow all happen in `app/buckets/[id].js`.
- Rendering, navigation, the tag colour palette, notifications and the visuals settings are not part of this model.
- The date picker's own dialog is not modelled. Its result enters as `HandleDateChange`'s argument.
- The title and notes setters of the wizard are plain field assignments. They are not modelled.
- Console logging is not modelled. `removeTask`, the unknown-id branch of `completeTask` and the non-array branch of `reorderTasks` write to the console (`app/context/TaskContext.js:58`, `68` and `99`); the branches themselves are modelled, the messages are not.
- Cue.IsDue: its own contract states for Monthly tasks only that a due task falls in this month or the next one. The exact Monthly window is stated by `Cue.MonthlyWindowWithinMonth` and `Cue.MonthlyWindowAcrossMonths`.
