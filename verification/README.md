# Scheduling System — a Dafny model of its timetable and account logic

The Scheduling System is an Android app for a school. Administrators manage
rooms and their weekly class schedules. Teachers see their own classes. This
project models the logic behind the app's screens as pure Dafny functions,
methods and lemmas. The screens and their logic are:

- **Room timetable** (`AdminDashboardScheduleRoom`): a flattened week or day grid. It holds a header row and one
  row per half-hour label from 7:00 AM to 7:00 PM. Schedule entries are placed into it slot by slot. The module
  also covers the current weekday's name and the two clicks that open the schedule editor.
- **Merged timetable list** (`TimeSlotAdapter`): a run-length pass merges consecutive rows of the same class into
  one tall row. It hides the rows it swallows.
- **Keyed timetable** (`TimeTableFragment`, `TimeTableAdapter`): schedules are grouped under the key `day_start`.
  Each grid cell reads the bucket of its day and its row's time label.
- **Schedule editor** (`EditScheduleActivity`): six dropdown selections kept as ids, which are -1 while unset. The
  module covers:
  - the prefill from a stored schedule, where each selection takes the first case-insensitive match;
  - the guard on the section request;
  - the save request's guard, payload and endpoint;
  - the replies.
- **Room editor** (`EditRoomDialogActivity` and `EditRoomDialogFragment`): the launch values, the pre-filled
  fields, the validation of name and capacity, "No changes made", and the update request and its reply.
- **Searchable dropdown** (`DropdownAdapter`): a case-insensitive substring filter over a fixed list of strings.
- **Session** (`SessionManager`): the signed-in user kept in `SharedPreferences`. It also covers the role checks,
  the 24-hour validity window, the feature permissions and the first-launch flag.
- **Login** (`LoginActivity`): the input guard, the classification of the server's reply, the split of the user's
  name, the stored login data and the dashboard routing.
- **Person list** (`PersonEntityAdapter`) and **teacher schedule list** (`TeacherScheduleAdapter`): the texts a row
  shows, the status badge, and the comparisons that decide whether two list items are the same row.

Shared helpers:

- `Base`: `Option`, and the 32-bit and 64-bit wrap-around.
- `Text`: case folding, whitespace, `trim`, `split` and `join`, and Kotlin's `toIntOrNull` and `Int.toString`.
- `Json`: the `org.json` accessors over a JSON object value.
- `Prefs`: `SharedPreferences` as a map of typed values.
- `Axes`: the 25 time labels and the 7 day names that every timetable uses.

Some operations depend on things outside the code. They are parameters of the model:

- **The clock** is `now`: `System.currentTimeMillis()`.
- **The weekday** is `dayOfWeek`: `Calendar.DAY_OF_WEEK`.
- **The server's replies** are passed in, already parsed. A reply that cannot be parsed is `None`.
- **Gson** is a codec that comes with a round-trip predicate.

## Model

| member | source | states |
|---|---|---|
| RoomTimetable.ColumnsMatchHeaders | app/src/main/java/com/example/schedulingSystem/AdminDashboardScheduleRoom.kt:144-164 | the grid has the corner column plus one column per day header: 8 in week view, with the seven days; 2 in day view, with the current day's name in upper case |
| RoomTimetable.ColOf | app/src/main/java/com/example/schedulingSystem/AdminDashboardScheduleRoom.kt:279 | the column of a flattened position is always a real column of the view |
| RoomTimetable.PositionDecode | app/src/main/java/com/example/schedulingSystem/AdminDashboardScheduleRoom.kt:279 | the flattened position `(row + 1) * columns + col` decodes back to exactly that row and column, and every time row lies inside the grid |
| RoomTimetable.PositionBounds | app/src/main/java/com/example/schedulingSystem/AdminDashboardScheduleRoom.kt:139-173 | every position below the header row belongs to a time label's row |
| RoomTimetable.Blanks | app/src/main/java/com/example/schedulingSystem/AdminDashboardScheduleRoom.kt:167-170 | the padding after a time label is the requested number of empty cells |
| RoomTimetable.AbbreviatedHeaders | app/src/main/java/com/example/schedulingSystem/AdminDashboardScheduleRoom.kt:159-164 | the week headers are each day's first three letters in upper case, one per day, in order |
| RoomTimetable.TimeRowsLength | app/src/main/java/com/example/schedulingSystem/AdminDashboardScheduleRoom.kt:167-170 | each time label contributes exactly one full row |
| RoomTimetable.TimeRowsAt | app/src/main/java/com/example/schedulingSystem/AdminDashboardScheduleRoom.kt:167-170 | a time-row cell holds its row's label in the first column and is empty elsewhere |
| RoomTimetable.LabelRowsCell | app/src/main/java/com/example/schedulingSystem/AdminDashboardScheduleRoom.kt:167-170 | a body position of the time rows holds the label of its own row or an empty cell |
| RoomTimetable.BuildSkeleton | app/src/main/java/com/example/schedulingSystem/AdminDashboardScheduleRoom.kt:139-173 | the freshly built grid has exactly `columns × 26` cells, each holding what its coordinates prescribe (corner, day header, time label or empty) |
| RoomTimetable.HeaderRowCells | app/src/main/java/com/example/schedulingSystem/AdminDashboardScheduleRoom.kt:159-164 | the first row is the empty corner followed by the day headers |
| RoomTimetable.BodyCell | app/src/main/java/com/example/schedulingSystem/AdminDashboardScheduleRoom.kt:167-170 | a body cell of the grid equals the coordinate description of the skeleton |
| RoomTimetable.SkeletonBodyCell | app/src/main/java/com/example/schedulingSystem/AdminDashboardScheduleRoom.kt:167-170 | a fresh body cell is its row's time label in column 0 and empty in every day column |
| RoomTimetable.ClearBody | app/src/main/java/com/example/schedulingSystem/AdminDashboardScheduleRoom.kt:247-254 | clearing keeps the size, every header and time label, and empties every other cell |
| RoomTimetable.ClearedFrameIsSkeleton | app/src/main/java/com/example/schedulingSystem/AdminDashboardScheduleRoom.kt:247-254 | clearing a grid with the skeleton's frame gives back the skeleton itself |
| RoomTimetable.SkeletonBodyIsEmpty | app/src/main/java/com/example/schedulingSystem/AdminDashboardScheduleRoom.kt:167-170 | every non-frame cell of the skeleton is empty |
| RoomTimetable.Resolve | app/src/main/java/com/example/schedulingSystem/AdminDashboardScheduleRoom.kt:259-279 | a placed entry gets a day column and a non-empty row range that ends before the last label |
| RoomTimetable.ResolveRules | app/src/main/java/com/example/schedulingSystem/AdminDashboardScheduleRoom.kt:259-279 | an entry is dropped exactly when its day is not shown, a label is off the axis, or its start is not before its end; otherwise it is placed at its day's column and its labels' rows |
| RoomTimetable.ResolveDropRule | app/src/main/java/com/example/schedulingSystem/AdminDashboardScheduleRoom.kt:259-274 | the drop half of the skip rules: an entry is dropped exactly when its day or a label is missing from the axes, or its start is not before its end |
| RoomTimetable.ResolvePlacementFacts | app/src/main/java/com/example/schedulingSystem/AdminDashboardScheduleRoom.kt:259-279 | a placement's column names the entry's own day (column 1 is the current day in day view), and its start and end rows carry the entry's own labels |
| RoomTimetable.CoversIsBody | app/src/main/java/com/example/schedulingSystem/AdminDashboardScheduleRoom.kt:277-292 | an entry never writes a header or a time label |
| RoomTimetable.PlacementCoverage | app/src/main/java/com/example/schedulingSystem/AdminDashboardScheduleRoom.kt:277-292 | a placement writes exactly one position per row from its start label up to, but not including, its end label, all inside the body |
| RoomTimetable.EntryPositionsDistinct | app/src/main/java/com/example/schedulingSystem/AdminDashboardScheduleRoom.kt:277-292 | the positions one entry writes are pairwise distinct |
| RoomTimetable.BottomRowNeverCovered | app/src/main/java/com/example/schedulingSystem/AdminDashboardScheduleRoom.kt:259-292 | no entry ever writes the 7:00 PM row, because that label can only end a range |
| RoomTimetable.WriteBlocks | app/src/main/java/com/example/schedulingSystem/AdminDashboardScheduleRoom.kt:277-292 | each row of the range gets a one-slot block carrying that row's own label; every other cell is kept |
| RoomTimetable.PlaceEntry | app/src/main/java/com/example/schedulingSystem/AdminDashboardScheduleRoom.kt:256-293 | one entry changes exactly the cells it covers, each to its block; a skipped entry changes nothing |
| RoomTimetable.LastCovering | app/src/main/java/com/example/schedulingSystem/AdminDashboardScheduleRoom.kt:256-293 | the reference definition: the last entry, in input order, that covers a position, or none when no entry covers it |
| RoomTimetable.ExpectedCellSnoc | app/src/main/java/com/example/schedulingSystem/AdminDashboardScheduleRoom.kt:256-293 | placing one more entry changes the expected cell exactly where that entry writes |
| RoomTimetable.ClearedIsPopulatedByNothing | app/src/main/java/com/example/schedulingSystem/AdminDashboardScheduleRoom.kt:247-254 | the cleared grid is the grid populated by no entries |
| RoomTimetable.PlacedOneMore | app/src/main/java/com/example/schedulingSystem/AdminDashboardScheduleRoom.kt:256-293 | one loop step turns the grid populated from `es` into the grid populated from `es + [e]` |
| RoomTimetable.Populate | app/src/main/java/com/example/schedulingSystem/AdminDashboardScheduleRoom.kt:241-296 | the frame is untouched; each body cell holds the block of the last entry covering it, or is empty |
| RoomTimetable.PopulatedBlockCell | app/src/main/java/com/example/schedulingSystem/AdminDashboardScheduleRoom.kt:276-292 | a covered body cell holds the last covering entry's id, subject, section, teacher and status, a row span of 1, its own row's label, and a day that names its column |
| RoomTimetable.PlaceAll | app/src/main/java/com/example/schedulingSystem/AdminDashboardScheduleRoom.kt:256-293 | the placement loop over a cleared grid gives the populated grid |
| RoomTimetable.EntriesOfDay | app/src/main/java/com/example/schedulingSystem/AdminDashboardScheduleRoom.kt:234-238 | the day filter keeps exactly the entries of that day |
| RoomTimetable.DayFilterIsRedundant | app/src/main/java/com/example/schedulingSystem/AdminDashboardScheduleRoom.kt:234-238 | in day view the day filter changes no cell, because placement already skips entries of other days |
| RoomTimetable.OtherDayNeverCovers | app/src/main/java/com/example/schedulingSystem/AdminDashboardScheduleRoom.kt:259-266 | day view places nothing from another day |
| RoomTimetable.LastCoveringSnoc | app/src/main/java/com/example/schedulingSystem/AdminDashboardScheduleRoom.kt:256-293 | a later covering entry overwrites an earlier one |
| RoomTimetable.EntriesOfDaySnoc | app/src/main/java/com/example/schedulingSystem/AdminDashboardScheduleRoom.kt:234-238 | the day filter keeps input order |
| RoomTimetable.ShowWeek | app/src/main/java/com/example/schedulingSystem/AdminDashboardScheduleRoom.kt:139-173 | the week view is a fresh week grid populated with every entry |
| RoomTimetable.ShowDay | app/src/main/java/com/example/schedulingSystem/AdminDashboardScheduleRoom.kt:234-238 | the day view is a fresh grid for the current day, populated as the unfiltered list would populate it |
| RoomTimetable.CurrentDayName | app/src/main/java/com/example/schedulingSystem/AdminDashboardScheduleRoom.kt:110-122 | Calendar's 1..7 (Sunday first) map to the day names; any other value gives Monday |
| RoomTimetable.ClickOnPopulated | app/src/main/java/com/example/schedulingSystem/AdminDashboardScheduleRoom.kt:313-331 | after populating, a click on a covered cell builds an intent with the last covering entry's id, day and status and the cell's own time; a click on any other body cell builds one with id -1 and its column's day and row's time; frame clicks build none |
| RoomTimetable.ClickOnBody | app/src/main/java/com/example/schedulingSystem/AdminDashboardScheduleRoom.kt:313-331 | the same intents for one body cell that holds its expected content |
| RoomTimetable.SkeletonFrameCell | app/src/main/java/com/example/schedulingSystem/AdminDashboardScheduleRoom.kt:159-170 | the frame holds only headers and time labels |
| RoomTimetable.BlockDayMatchesColumn | app/src/main/java/com/example/schedulingSystem/AdminDashboardScheduleRoom.kt:259-279 | the column a block lands in stands for the entry's own day |
| EditSchedule.EditorFromClick | app/src/main/java/com/example/schedulingSystem/AdminDashboardScheduleRoom.kt:313-331 | clicking a schedule's block in a populated room grid opens the editor on the schedule of the last entry covering that cell, in the screen's room, and loads the stored schedule exactly when that id is not -1 |
| EditSchedule.EmptySlotOpensBlankEditor | app/src/main/java/com/example/schedulingSystem/AdminDashboardScheduleRoom.kt:318-331 | every empty slot of a room opens the same blank editor, which loads nothing: the slot's day and time do not reach it |
| TimeSlotMerge.Range | app/src/main/java/com/example/schedulingSystem/adapters/TimeSlotAdapter.kt:58-61 | the rows a run hides are exactly those after its first row and inside the run |
| TimeSlotMerge.RunLength | app/src/main/java/com/example/schedulingSystem/adapters/TimeSlotAdapter.kt:39-54 | the inner loop stops at the first row that does not carry on the run, or at the end of the list |
| TimeSlotMerge.RunShape | app/src/main/java/com/example/schedulingSystem/adapters/TimeSlotAdapter.kt:39-54 | every row inside a run continues the row above it; the row after the run does not; a run of two or more is a merged run closed at its bottom |
| TimeSlotMerge.MergeSkip | app/src/main/java/com/example/schedulingSystem/adapters/TimeSlotAdapter.kt:33-36 | stepping over a hidden row or a free cell keeps the walk's invariant |
| TimeSlotMerge.MergeSingle | app/src/main/java/com/example/schedulingSystem/adapters/TimeSlotAdapter.kt:57-64 | a run of one row records nothing and keeps the invariant |
| TimeSlotMerge.MergeRunOf | app/src/main/java/com/example/schedulingSystem/adapters/TimeSlotAdapter.kt:57-64 | a run of two or more rows hides all of them but the first, records its length at the first, and keeps the invariant |
| TimeSlotMerge.MergeStart | app/src/main/java/com/example/schedulingSystem/adapters/TimeSlotAdapter.kt:28-29 | the walk's invariant holds before the first row |
| TimeSlotMerge.MergeDone | app/src/main/java/com/example/schedulingSystem/adapters/TimeSlotAdapter.kt:30-65 | at the end of a day's walk, the invariant gives that day's guarantees |
| TimeSlotMerge.MergeDay | app/src/main/java/com/example/schedulingSystem/adapters/TimeSlotAdapter.kt:30-65 | one day's walk: the hidden set and the height map only grow; each newly hidden row continues the class above it; each newly recorded height heads a run closed at its bottom whose other rows are hidden; runs do not overlap; from an empty start every continuing row is hidden |
| TimeSlotMerge.CalculateMergedRows | app/src/main/java/com/example/schedulingSystem/adapters/TimeSlotAdapter.kt:24-67 | every hidden row continues the class above it on some day; every height is a run of some day closed at its bottom; every continuing row of Monday is hidden |
| TimeSlotMerge.BindCell | app/src/main/java/com/example/schedulingSystem/adapters/TimeSlotAdapter.kt:110-137 | a cell shows "Free" in grey on white exactly when it has no class or a free one; a class shows in dark text on light blue |
| TimeSlotMerge.OccupiedCellReadsBack | app/src/main/java/com/example/schedulingSystem/adapters/TimeSlotAdapter.kt:113-119 | a class cell reads back, line by line, as subject, section and, only when there is one, the teacher |
| TimeSlotMerge.BindRow | app/src/main/java/com/example/schedulingSystem/adapters/TimeSlotAdapter.kt:87-138 | a hidden row is gone; any other row shows its label and one cell per day, and is 60 per slot tall exactly when it heads a run of two or more |
| TimeSlotMerge.MergedRows | app/src/main/java/com/example/schedulingSystem/adapters/TimeSlotAdapter.kt:24-138 | the first row is shown; a gone row continues some day's class; Monday's continuing rows are gone; a tall row heads a run of `height / 60` rows, closed at its bottom, whose other rows are gone |
| KeyedTimetable.Bucket | app/src/main/java/com/example/schedulingSystem/fragments/TimeTableFragment.kt:37-45 | the reference bucket is non-empty exactly when some schedule has that key |
| KeyedTimetable.GroupedSnoc | app/src/main/java/com/example/schedulingSystem/fragments/TimeTableFragment.kt:40-42 | appending a schedule's item to the bucket of its key keeps the map grouped |
| KeyedTimetable.KeysSnoc | app/src/main/java/com/example/schedulingSystem/fragments/TimeTableFragment.kt:40-42 | the keys of a longer input are the old keys plus the new one |
| KeyedTimetable.BucketSnoc | app/src/main/java/com/example/schedulingSystem/fragments/TimeTableFragment.kt:40-42 | a bucket grows by the new item exactly when the key matches |
| KeyedTimetable.Group | app/src/main/java/com/example/schedulingSystem/fragments/TimeTableFragment.kt:37-45 | the map holds exactly the keys of the schedules, each with its items in input order |
| KeyedTimetable.GroupStart | app/src/main/java/com/example/schedulingSystem/fragments/TimeTableFragment.kt:37 | the empty map groups the empty prefix |
| KeyedTimetable.GroupStep | app/src/main/java/com/example/schedulingSystem/fragments/TimeTableFragment.kt:40-42 | one loop step extends the grouped prefix by one schedule |
| KeyedTimetable.GroupEnd | app/src/main/java/com/example/schedulingSystem/fragments/TimeTableFragment.kt:37-45 | the grouped full prefix is the grouped input |
| KeyedTimetable.DistinctKeys | app/src/main/java/com/example/schedulingSystem/fragments/TimeTableFragment.kt:37-45 | the map's keys, each once: exactly the keys some schedule has |
| KeyedTimetable.SumBucketsSnoc | app/src/main/java/com/example/schedulingSystem/fragments/TimeTableFragment.kt:40-42 | a new schedule adds one to the bucket total exactly when its key is counted |
| KeyedTimetable.SumBucketsAppend | app/src/main/java/com/example/schedulingSystem/fragments/TimeTableFragment.kt:37-45 | counting one more key adds that bucket's size |
| KeyedTimetable.BucketSizesAddUp | app/src/main/java/com/example/schedulingSystem/fragments/TimeTableFragment.kt:37-45 | every schedule lands in exactly one bucket |
| KeyedTimetable.GroupedSizesAddUp | app/src/main/java/com/example/schedulingSystem/fragments/TimeTableFragment.kt:37-45 | the sizes of the grouped map's buckets add up to the number of schedules |
| KeyedTimetable.RenderItemReadsBack | app/src/main/java/com/example/schedulingSystem/adapters/TimeTableAdapter.kt:43-45 | a rendered class reads back, line by line, as its subject, section and teacher |
| KeyedTimetable.CellTextReadsBack | app/src/main/java/com/example/schedulingSystem/adapters/TimeTableAdapter.kt:39-45 | a non-empty cell reads back as three lines per class of its bucket, in bucket order: each class's subject, section and teacher |
| KeyedTimetable.KeyInjective | app/src/main/java/com/example/schedulingSystem/fragments/TimeTableFragment.kt:40 | for an underscore-free day and time, the key `day_time` determines both |
| KeyedTimetable.AxesHaveNoUnderscore | app/src/main/java/com/example/schedulingSystem/fragments/TimeTableFragment.kt:19-24 | no day name or time label contains an underscore |
| KeyedTimetable.EntryShowsOnStartRowOnly | app/src/main/java/com/example/schedulingSystem/adapters/TimeTableAdapter.kt:33-50 | a cell shows something exactly when some schedule has that day and starts at that row's label, and it is highlighted exactly when it shows something |
| EditSchedule.ScheduleDetails | app/src/main/java/com/example/schedulingSystem/EditScheduleActivity.kt:250-280 | the details are used exactly when `success` is true and a schedule object is present |
| EditSchedule.OnPick | app/src/main/java/com/example/schedulingSystem/EditScheduleActivity.kt:160-241 | a pick sets only its own selection; choosing a teacher or subject asks for sections exactly when both are chosen |
| EditSchedule.SelectDayFirstMatch | app/src/main/java/com/example/schedulingSystem/EditScheduleActivity.kt:285-290 | without a match the form is unchanged; otherwise the first case-insensitive match is selected |
| EditSchedule.SelectSubjectFirstMatch | app/src/main/java/com/example/schedulingSystem/EditScheduleActivity.kt:293-301 | the first subject whose code matches, ignoring case, is selected; without one the form is unchanged |
| EditSchedule.SelectTeacherFirstMatch | app/src/main/java/com/example/schedulingSystem/EditScheduleActivity.kt:304-311 | the first teacher whose "name (email)" matches, ignoring case, is selected; without one the form is unchanged |
| EditSchedule.SelectTimeStartFirstMatch | app/src/main/java/com/example/schedulingSystem/EditScheduleActivity.kt:327-334 | the first slot named like the start time is selected; without one the form is unchanged |
| EditSchedule.SelectTimeEndFirstMatch | app/src/main/java/com/example/schedulingSystem/EditScheduleActivity.kt:336-340 | the first slot named like the end time is selected; without one the form is unchanged |
| EditSchedule.SelectSectionByFirstMatch | app/src/main/java/com/example/schedulingSystem/EditScheduleActivity.kt:314-324 | the first section with that name (ignoring case) and year is selected; without one the form is unchanged |
| EditSchedule.Prefill | app/src/main/java/com/example/schedulingSystem/EditScheduleActivity.kt:282-349 | the prefill fails exactly when a required name cannot be read; a section request is made only when teacher and subject are chosen; the status defaults to "Pending" |
| EditSchedule.SelectSection | app/src/main/java/com/example/schedulingSystem/EditScheduleActivity.kt:314-324 | the section is chosen by the stored name and year, and nothing but the section changes; it fails exactly when the name cannot be read |
| EditSchedule.SelectDayKeeps | app/src/main/java/com/example/schedulingSystem/EditScheduleActivity.kt:285-290 | selecting a day again leaves the form as it is |
| EditSchedule.SelectSubjectKeeps | app/src/main/java/com/example/schedulingSystem/EditScheduleActivity.kt:293-301 | selecting a subject again leaves the form as it is |
| EditSchedule.SelectTeacherKeeps | app/src/main/java/com/example/schedulingSystem/EditScheduleActivity.kt:304-311 | selecting a teacher again leaves the form as it is |
| EditSchedule.SelectTimesKeep | app/src/main/java/com/example/schedulingSystem/EditScheduleActivity.kt:327-340 | selecting both times again leaves the form as it is |
| EditSchedule.PrefillIdempotent | app/src/main/java/com/example/schedulingSystem/EditScheduleActivity.kt:282-349 | prefilling an already prefilled form from the same schedule changes nothing |
| EditSchedule.PrefillBeforeLists | app/src/main/java/com/example/schedulingSystem/EditScheduleActivity.kt:282-349 | a stored schedule prefilled against empty lists sets only the subject code and name texts and the status, and does not fail |
| EditSchedule.SaveSchedule | app/src/main/java/com/example/schedulingSystem/EditScheduleActivity.kt:351-383 | a request exists exactly when every selection and the room are set; it carries the named ids, adds `schedule_id` only when editing, and goes to update_schedule.php when editing and to add_schedule.php otherwise |
| EditSchedule.SavePayloadRoundTrip | app/src/main/java/com/example/schedulingSystem/EditScheduleActivity.kt:363-375 | reading the payload back gives the chosen ids, the room and the status, and the schedule id exactly when editing |
| EditSchedule.EndpointMatchesPayload | app/src/main/java/com/example/schedulingSystem/EditScheduleActivity.kt:363-383 | a request goes to update_schedule.php exactly when its payload names a schedule |
| EditSchedule.SaveReply | app/src/main/java/com/example/schedulingSystem/EditScheduleActivity.kt:392-402 | `success` true saves; false is a rejection showing the reply's message, or "Operation completed" without one; an unreadable `success` is an error |
| RoomEdit.IntentLaunchAccepted | app/src/main/java/com/example/schedulingSystem/EditRoomDialogActivity.kt:38-46 | the activity goes on exactly when the intent carries a room id other than -1 and a non-empty name; the capacity plays no part |
| RoomEdit.LaunchFromArguments | app/src/main/java/com/example/schedulingSystem/fragments/EditRoomDialogFragment.kt:47-65 | without a bundle the fields keep -1, "" and 0 |
| RoomEdit.ArgumentsRoundTrip | app/src/main/java/com/example/schedulingSystem/fragments/EditRoomDialogFragment.kt:36-65 | what `newInstance` stores, the fragment reads back unchanged |
| RoomEdit.MissingLaunchValuesRefused | app/src/main/java/com/example/schedulingSystem/EditRoomDialogActivity.kt:42-46 | a launch without a name, without an id, or without a bundle is refused |
| RoomEdit.Submit | app/src/main/java/com/example/schedulingSystem/EditRoomDialogActivity.kt:58-88 | a blank name is a name error; otherwise a capacity that is not a positive Int is a capacity error; the launch values unchanged are "No changes made"; anything else is an update carrying the id, the trimmed name and the capacity |
| RoomEdit.UnchangedSubmitIsNoChange | app/src/main/java/com/example/schedulingSystem/EditRoomDialogActivity.kt:53-77 | pressing update on the untouched pre-filled fields of a valid room is "No changes made" |
| RoomEdit.NonPositiveCapacityRefused | app/src/main/java/com/example/schedulingSystem/EditRoomDialogActivity.kt:54-69 | a room launched with capacity 0 or below cannot be submitted with its own capacity |
| RoomEdit.UntrimmedCapacityRefused | app/src/main/java/com/example/schedulingSystem/EditRoomDialogActivity.kt:60-69 | the capacity text is not trimmed: any capacity with whitespace before or after it is refused |
| RoomEdit.UpdatePayloadRoundTrip | app/src/main/java/com/example/schedulingSystem/fragments/EditRoomDialogFragment.kt:107-124 | the update payload reads back as the id, the trimmed name and the capacity, and is sent only when name or capacity changed |
| RoomEdit.UpdateReply | app/src/main/java/com/example/schedulingSystem/fragments/EditRoomDialogFragment.kt:133-173 | a status outside 200..299 is a server error carrying that code, and only such a status is; the room counts as updated exactly when the reply's `success` is true; a 2xx reply with `success` false and a readable message is refused with that message, and every refusal shows the reply's message |
| Dropdown.FilterItems | app/src/main/java/com/example/schedulingSystem/adapters/DropdownAdapter.kt:54-57 | the filter keeps exactly the items that contain the query, and no more than there were |
| Dropdown.FilterCounts | app/src/main/java/com/example/schedulingSystem/adapters/DropdownAdapter.kt:54-57 | as a multiset the filtered list is the matching part of the items: each matching item as often as it occurs, no other item |
| Dropdown.FilteredIsSubsequence | app/src/main/java/com/example/schedulingSystem/adapters/DropdownAdapter.kt:55-57 | the filtered list keeps the items' order |
| Dropdown.EmptyQueryKeepsAll | app/src/main/java/com/example/schedulingSystem/adapters/DropdownAdapter.kt:51-57 | filtering by the empty text would keep every item, so the empty-constraint shortcut agrees with the filter |
| Dropdown.PerformFiltering | app/src/main/java/com/example/schedulingSystem/adapters/DropdownAdapter.kt:48-63 | a missing or empty constraint shows all items; any other shows exactly the items containing it, ignoring case, each as often as it occurs, in order; the reported count is the list's size |
| Dropdown.PublishWithoutResultsResets | app/src/main/java/com/example/schedulingSystem/adapters/DropdownAdapter.kt:66-69 | publishing no results undoes any filter: the list shows what a pass without a constraint shows |
| Dropdown.FilterThenPublish | app/src/main/java/com/example/schedulingSystem/adapters/DropdownAdapter.kt:48-69 | publishing a pass's own results shows its list, and the count matches the rows shown |
| Dropdown.GetItem | app/src/main/java/com/example/schedulingSystem/adapters/DropdownAdapter.kt:26 | an item at a shown position is one of the shown items |
| Session.SaveUserSession | app/src/main/java/com/example/schedulingSystem/utils/SessionManager.kt:38-50 | the save adds exactly the eight session keys and keeps every other key |
| Session.UpdateOverwritesSession | app/src/main/java/com/example/schedulingSystem/utils/SessionManager.kt:157-159 | an update after an earlier save makes the store read as the new user's session, valid at the update's time |
| Session.GetUserData | app/src/main/java/com/example/schedulingSystem/utils/SessionManager.kt:56-64 | without stored user data there is no user |
| Session.IsFirstLaunch | app/src/main/java/com/example/schedulingSystem/utils/SessionManager.kt:210-216 | the answer is the stored flag (true when absent); afterwards the flag reads false; other keys are kept |
| Session.SavePreference | app/src/main/java/com/example/schedulingSystem/utils/SessionManager.kt:223-225 | a saved preference reads back; other keys are kept |
| Session.GetPreference | app/src/main/java/com/example/schedulingSystem/utils/SessionManager.kt:233-235 | a missing preference reads as the default |
| Session.ValidImpliesLoggedIn | app/src/main/java/com/example/schedulingSystem/utils/SessionManager.kt:142-151 | only a logged-in session is valid |
| Session.ValidityWindow | app/src/main/java/com/example/schedulingSystem/utils/SessionManager.kt:142-151 | for a login time not after now, the session is valid exactly when the login is less than 24 hours old |
| Session.ValidWhenClockGoesBack | app/src/main/java/com/example/schedulingSystem/utils/SessionManager.kt:142-151 | a login time in the future leaves the session valid |
| Session.SavedSessionReadsBack | app/src/main/java/com/example/schedulingSystem/utils/SessionManager.kt:38-136 | after a save the user reads back; the session is logged in and valid; each getter returns the user's field; the roles follow the account type, ignoring case |
| Session.ClearedSessionIsEmpty | app/src/main/java/com/example/schedulingSystem/utils/SessionManager.kt:94-185 | after a logout every getter gives its default, nobody is logged in, and no feature is permitted |
| Session.FirstLaunchOnlyOnce | app/src/main/java/com/example/schedulingSystem/utils/SessionManager.kt:210-216 | the first check on a fresh store reports a first launch; every later check does not, and changes nothing |
| Session.OperationsKeepConsistent | app/src/main/java/com/example/schedulingSystem/utils/SessionManager.kt:38-225 | saving, clearing, the first-launch check and unrelated preferences keep user data paired with the logged-in flag |
| Session.PermissionsNeedLogin | app/src/main/java/com/example/schedulingSystem/utils/SessionManager.kt:177-185 | every permission needs a logged-in user; rooms and approvals are for admins, requests for teachers; unknown features are refused |
| Login.CheckInput | app/src/main/java/com/example/schedulingSystem/LoginActivity.kt:44-54 | nothing is sent exactly when either field is blank; otherwise the trimmed pair is sent |
| Login.LoginPayloadCarriesInput | app/src/main/java/com/example/schedulingSystem/LoginActivity.kt:44-66 | the request body has exactly the two fields, holding the trimmed username and password the input check let through |
| Login.RouteIsAdminIgnoringCase | app/src/main/java/com/example/schedulingSystem/LoginActivity.kt:206-215 | the admin dashboard is chosen exactly for account type "admin", ignoring case |
| Login.NonBlank | app/src/main/java/com/example/schedulingSystem/LoginActivity.kt:187 | the filter keeps exactly the non-blank parts |
| Login.NonBlankSnoc | app/src/main/java/com/example/schedulingSystem/LoginActivity.kt:187 | the filter keeps order and duplicates: one more part is appended exactly when it is not blank |
| Login.SplitNameGivesWords | app/src/main/java/com/example/schedulingSystem/LoginActivity.kt:187-189 | the first name is "User" or a non-blank piece without spaces; the last name holds no space |
| Login.SplitNameOfWords | app/src/main/java/com/example/schedulingSystem/LoginActivity.kt:187-189 | a name of words joined by single spaces splits into its first and its last word |
| Login.WordsOfJoin | app/src/main/java/com/example/schedulingSystem/LoginActivity.kt:187 | splitting words joined by single spaces and dropping blanks gives back the words |
| Login.SplitBlankName | app/src/main/java/com/example/schedulingSystem/LoginActivity.kt:187-189 | a blank name gives "User" and "" |
| Login.SaveLogin | app/src/main/java/com/example/schedulingSystem/LoginActivity.kt:192-201 | the stored login reads back as the id, username, full name, its first and last word, account type, the flag and the time; other keys are kept |
| Login.HandleResponse | app/src/main/java/com/example/schedulingSystem/LoginActivity.kt:108-169 | an empty body, an HTML body (previewing at most 200 characters) and unparsable JSON are told apart; a failed login shows the reply's message, or "Login failed" without one, and a reply without `success` is a failed login; a JSON reply with `success` true is handled by the success path, and a logged-in result needs `success` true |
| Login.HandleLoginSuccess | app/src/main/java/com/example/schedulingSystem/LoginActivity.kt:171-226 | the login succeeds exactly when the user object holds all four fields; otherwise it is a data error |
| Login.LoginStoresUser | app/src/main/java/com/example/schedulingSystem/LoginActivity.kt:171-226 | a successful login stores the user as the reply gave it and routes by account type |
| PersonList.BlankPartsAddNothing | app/src/main/java/com/example/schedulingSystem/adapters/PersonEntityAdapter.kt:37-43 | with blank middle, second and suffix parts the name is first and last name |
| PersonList.FullNameOfWords | app/src/main/java/com/example/schedulingSystem/adapters/PersonEntityAdapter.kt:37-43 | for unpadded parts, trimming cuts nothing from the assembled name |
| PersonList.TrimKeepsCore | app/src/main/java/com/example/schedulingSystem/adapters/PersonEntityAdapter.kt:43 | the trimmed name contains the trimmed form of every slice of the assembled name |
| PersonList.LastNameAlwaysShown | app/src/main/java/com/example/schedulingSystem/adapters/PersonEntityAdapter.kt:37-43 | the full name always contains the trimmed last name |
| PersonList.DiffDecidesRow | app/src/main/java/com/example/schedulingSystem/adapters/PersonEntityAdapter.kt:34-61 | the list keeps a row exactly when the person is unchanged, rebinds it exactly when the same id has other fields, replaces it exactly when the id differs; a row whose name, username or id would change is never kept |
| TeacherSchedule.StatusLabel | app/src/main/java/com/example/schedulingSystem/adapters/TeacherScheduleAdapter.kt:51-69 | the badge is always one of "Today", "Pending" and "Scheduled" |
| TeacherSchedule.Bind | app/src/main/java/com/example/schedulingSystem/adapters/TeacherScheduleAdapter.kt:34-70 | a row shows its item's badge with its colour, its room and its day, and the subject, section and time texts |
| TeacherSchedule.StatusBadge | app/src/main/java/com/example/schedulingSystem/adapters/TeacherScheduleAdapter.kt:51-69 | "Today" exactly for today's classes; "Pending" exactly for the others whose status is "pending" ignoring case; "Scheduled" for the rest; one colour per badge |
| TeacherSchedule.EditorStatusesBadges | app/src/main/java/com/example/schedulingSystem/adapters/TeacherScheduleAdapter.kt:58-69 | of the editor's statuses only "Pending" shows as pending |
| TeacherSchedule.SectionTextCarriesYear | app/src/main/java/com/example/schedulingSystem/adapters/TeacherScheduleAdapter.kt:39 | the section text is the name, " (", the year, ")", and the year reads back |
| TeacherSchedule.DashedTextsReadBack | app/src/main/java/com/example/schedulingSystem/adapters/TeacherScheduleAdapter.kt:36-45 | the subject line is the code, " - ", the name; the time line is the start, " - ", the end |
| TeacherSchedule.DashedTextsIdentify | app/src/main/java/com/example/schedulingSystem/adapters/TeacherScheduleAdapter.kt:36-45 | for dash-free codes and start labels, two rows show the same subject line exactly when code and name agree, and the same time line exactly when start and end agree |
| TeacherSchedule.DiffDecidesRow | app/src/main/java/com/example/schedulingSystem/adapters/TeacherScheduleAdapter.kt:75-82 | the list keeps a row exactly when the item is unchanged, rebinds it exactly when the same schedule id has other fields, replaces it exactly when the id differs; a row whose shown texts or badge would change is never kept |

## Left out

**Platform and I/O**

- The user interface, toasts, view bindings, layouts and colours as Android resources. Only the data the views show
  is modelled.
- Networking: OkHttp, the coroutines, timeouts and the PHP backend. Requests are modelled as payload and URL, and
  replies as values passed in.
- JSON text parsing. `JSONObject(text)` is a parameter that is `None` where it throws.
- `org.json` coercions. A nested object asked for as a string is `None`. Floating-point numbers are left out.
- Gson serialisation of the user. It is a codec parameter that is assumed to round-trip (`Session.RoundTrips`).
- Case folding, whitespace and digits are ASCII-only. Kotlin uses Unicode rules for `lowercase`, `trim`,
  `isBlank` and `toIntOrNull`.
- `SharedPreferences` read with the wrong type (for example `getInt` on a stored string) returns the default in the
  model. Android throws `ClassCastException` there.
- The two preference files are separate stores. LoginActivity writes "user_session"; SessionManager uses
  "scheduling_system_session".
- `getSessionSummary`: it only formats text for display.
- Lifecycle: a fragment keeps running after `dismiss()` in its `onCreate`, and results are delivered after a
  screen has closed. Neither is modelled.

**Source that does not compile as shown**

- `TimetableGridAdapter` is constructed with a listener it does not declare. `RoomTimetable.CellClick` models the
  intended dispatch through the screen's click callbacks.
- The `ScheduleEntry` and `ClassBlock` fields used by the screen differ from their declarations. The model follows
  the screen's usage.
- `Day`, `Teacher`, `Subject`, `Section` and the schedule-list response classes are not part of this model. Their
  fields are taken from how the screens use them.

**Behaviour outside the model**

- The `AutoCompleteTextView` reports a position in its filtered list, which the editor uses as an index into the
  full list. `EditSchedule.OnPick` takes positions in the full list.
- An exception thrown while reading `section_name` in the section callback is uncaught in the source.
  `EditSchedule.SelectSection` returns `None` there.
- `TimeTableAdapter.getItemCount`: the grid has one row per time label. The model addresses rows by index into the
  time axis directly, so the count is the axis length by construction.
- The schedule editor reads only the `schedule_id`, `room_id` and `room_name` extras. The day, time slot and status
  that the room timetable's clicks put into the intent never reach it, so a new schedule starts with no day or time
  chosen (`EditSchedule.EmptySlotOpensBlankEditor`).
- The editor starts loading the dropdown lists and, when editing, the stored schedule at the same time
  (EditScheduleActivity.kt:78-86). When the schedule arrives before the lists, it is matched against empty lists,
  so only the subject texts and the status are set. `EditSchedule.Prefill` takes the lists as a parameter, and
  `EditSchedule.PrefillBeforeLists` states that outcome for empty lists; the ordering of the two replies is not
  modelled.
- SQLite, the other screens (dashboards, request lists, account management) and the dropdown data service.

**Contracts deliberately narrowed**

- Session.ValidityWindow: stated only for login times and clock values between 0 and `Long.MAX_VALUE`. Negative
  clock values never occur on a device.
- Dropdown.GetItem: requires a position inside the shown list. Kotlin throws outside it, and the list view never
  asks for such a position.
- Session.GetUserData: states only that nothing stored means no user. The read-back of a stored user is
  Session.SavedSessionReadsBack.
- TimeSlotMerge.MergedRows: hidden rows and run heights are keyed by row only and shared by all seven days, as in
  the source. The contract states what holds for some day, and every-row coverage for Monday only.
- Json.AsInt: a string value is read only as a decimal `Int` (`Text.ParseInt`). The `org.json` of Android reads it
  with `(int) Double.parseDouble`, which also accepts surrounding whitespace, a fraction or an exponent (" 5",
  "5.0", "1e3") and saturates out-of-range values.
- TimeSlotMerge.BindRow: a shown row's height is stated only for a row heading a run. Otherwise the source leaves the
  view holder's height as it was: the layout's own height on a fresh holder, but a recycled holder keeps the height
  of the row it showed before (0 after a hidden row, 60 per slot after a run head). The model's `None` stands for
  "not set here", not for the layout's height.
- TimeSlotMerge.MergedRows: for the same reason, a shown row without a height may show at a stale height after
  recycling; the contract speaks only of the heights the bind sets.
