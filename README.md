# daily-tracker: a verified model of its calorie, day and account logic

daily-tracker is a personal food and activity diary. Each day has an id of the form `YYYY-MM-DD`,
five meal slots (`sabah`, `araOgun1`, `oglen`, `araOgun2`, `aksam`), photos attached to meals, and
water, step, weight and calorie counters. Food entries are free text such as `"Pilav 200 kcal"`.
Their calories are read back with the regular expression `/(\d+)\s*kcal/i` wherever a total is
shown. An Express/Mongoose server stores each user's days and accounts. A React client edits
them and, without a configured server, keeps them in the browser's storage.

This project models that logic in Dafny and proves what each piece promises.

- `kcal.dfy` (module `Kcal`) defines the calorie annotation once: the first match of
  `/(\d+)\s*kcal/i` with leftmost-match semantics, its decimal value, and the display pattern
  `/(\s*-?\d+\s*kcal)/i` that strips the annotation from the shown text.
- `calories.dfy` (module `Calories`) holds the reference sums (per slot, per day, with photos) and
  the schema's `calculatedCalories` loop. The loop copies in `dayview.dfy`, `helpers.dfy` and
  `app.dfy` are proved equal to these sums.
- `day.dfy` (module `DaySchema`) is the day record: schema bounds and defaults, trimming on cast,
  and the `$set` merge an update performs.
- `daystore.dfy` (module `DayRoutes`) holds the day routes as a class over a map keyed by
  `(userId, dayId)`. The key is the schema's composite unique index.
- `foodcolumn.dfy` (module `FoodColumn`) is the food list editor: composing `"<name> <cal>kcal"`,
  splitting it back, add, delete, edit and commit. The component is a class whose methods are
  proved against pure state functions.
- `app.dfy`, `dayview.dfy` and `helpers.dfy` hold the client's list maintenance, pagination, state
  updaters, `isoToday`, `emptyDay` and the demo day.
- `client.dfy` (module `Client`) holds the browser-side demo store, `upsertDay` and the
  authentication token. The two client copies of this layer (`frontend/src/api.js` and
  `frontend/src/services/api.js`) behave the same on everything modelled and are modelled once.
- `users.dfy` (module `AuthRoutes`) holds the account routes: unique usernames, login, the
  truthy-field profile merge, the password change, and password-free answers.

The supporting modules are `wrappers.dfy` (`Option`, `Result`), `text.dfy` (character classes,
digit and white-space runs, trimming, decimal values, ordinal string order) and `seqs.dfy`
(generic sequence facts).

Where the code and the project's own description of it differ, the model follows the code.

- `PUT /days/:dayId` passes a plain object to `findOneAndUpdate`, which Mongoose applies as
  `$set`. Fields the body leaves out keep their stored values rather than being replaced, and no
  validator runs on the update.
- Photo calories are read with `parseInt(photo.calories) || 0`. A negative value is kept, not
  clamped to 0.

JavaScript's `localeCompare` on day ids and MongoDB's `sort({ id: -1 })` are modelled as ordinal
string order. `\s` is ASCII white space. `parseInt` is exact on unbounded naturals. The server's
clock and `Date.now()` ids are parameters.

`App.jsx` carries its own copies of `isoToday` (lines 39-46) and `emptyDay` (lines 48-61). They
have the same bodies as the helpers in `frontend/src/utils/helpers.jsx` and are modelled by
`Helpers.IsoToday` and `Helpers.EmptyDay`.

## Model

| member | source | states |
|---|---|---|
| Kcal.FirstMatch | backend/models/Day.js:100 | the index found is a match of `(\d+)\s*kcal` and no earlier index is; no result means no index matches |
| Kcal.KcalDigits | frontend/src/components/FoodColumn.jsx:77 | the captured group, when present, is a non-empty run of digits |
| Kcal.FirstMatchIs | backend/models/Day.js:100-103 | a match with no earlier match is the one the regex returns, and its digits are the capture |
| Kcal.FirstMatchStartsRun | backend/models/Day.js:100 | the first match never starts inside a run of digits |
| Kcal.PositiveNeedsMatch | frontend/src/utils/helpers.jsx:6-7 | an entry worth more than 0 contains a match |
| Kcal.AppendKeepsFirstMatch | frontend/src/utils/helpers.jsx:6-7 | text appended after an annotated entry never changes its capture or its calories |
| Kcal.AnnotatedValue | frontend/src/utils/helpers.jsx:6-7 | an entry `<digit-free text><digits><spaces>kcal<anything>`, in any letter case, is worth its digits |
| Kcal.UnitBeforeDigitsIsNoMatch | frontend/src/utils/helpers.jsx:6-7 | `"kcal150"` has no match and is worth 0 |
| Kcal.NoDigitsNoMatch | backend/models/Day.js:100-103 | an entry without digits has no match and adds 0 |
| Kcal.ValueMatchIsDisplayMatch | frontend/src/components/FoodColumn.jsx:184-188 | wherever the value pattern matches, the display pattern matches at or before it |
| Kcal.FirstDisplayMatch | frontend/src/components/FoodColumn.jsx:187 | the index found is a match of `\s*-?\d+\s*kcal` and no earlier index is; no result means none matches |
| Kcal.DisplayText | frontend/src/components/FoodColumn.jsx:184-188 | an entry without a match is shown whole; one with a match is shown trimmed and strictly shorter |
| Kcal.DisplayTextAt | frontend/src/components/FoodColumn.jsx:187 | the shown text is the entry with its first display match cut out, trimmed |
| Kcal.DisplayTextEndsAt | frontend/src/components/FoodColumn.jsx:187 | when the display match runs to the end, the shown text is what precedes it |
| Kcal.Badge | frontend/src/components/FoodColumn.jsx:184-185 | the badge is empty exactly when the entry has no match |
| Meals.ParseMealKey | backend/routes/days.js:120-123 | a meal type is accepted exactly when it is one of the five slot names, and names that slot |
| Meals.ParseKeyName | backend/routes/days.js:120-123 | every slot's name passes the whitelist and maps back to the slot |
| Meals.AddPhoto | backend/routes/days.js:134-146 | the slot gets exactly one photo appended after its earlier photos; every other slot is unchanged |
| Meals.WithoutId | backend/routes/days.js:176-180 | the photos kept are exactly those whose id differs, and there are no more than before |
| Meals.WithoutIdCounts | backend/routes/days.js:176-180 | every photo whose id differs is kept as many times as it occurred, and no photo with the id remains |
| Meals.WithoutIdAppend | backend/routes/days.js:176-180 | the filter keeps order: filtering a concatenation is filtering each part, in place |
| Meals.WithoutAbsentId | backend/routes/days.js:176-180 | filtering out an id no photo carries leaves the list as it was |
| Meals.RemoveAppended | backend/routes/days.js:176-180 | filtering out the id of a photo just appended undoes the append |
| Meals.RemovePhoto | backend/routes/days.js:176-180 | only the named slot changes; it keeps every photo with another id, as many times as it occurred, and none with the id; a missing slot or object stays missing |
| DaySchema.TrimAll | backend/models/Day.js:15-52 | an array of trimmed strings keeps its length and order, and every element is trimmed |
| DaySchema.CastSlots | backend/models/Day.js:15-46 | each meal list present is trimmed element by element; missing lists stay missing |
| DaySchema.Cast | backend/models/Day.js:3-85 | casting trims meals, activities and notes and leaves every other field as given |
| DaySchema.FillSlots | backend/models/Day.js:15-46 | every slot of a new document is a list: the given one, or `[]` |
| DaySchema.NewDocument | backend/models/Day.js:3-85 | a new document keeps id, owner, weight and the record's photos (see "## Left out"); has all five trimmed meal lists, trimmed activities and notes (default ""); and water, steps and total default to 0 |
| DaySchema.NewDocumentTrimsEntries | backend/models/Day.js:15-46 | each entry of a new document's meal list is the body's entry trimmed, at the same position |
| DaySchema.MergeIdempotent | backend/routes/days.js:79-86 | applying the same update twice is applying it once |
| DaySchema.MergeFullBody | backend/routes/days.js:79-86 | a body that carries every field replaces the stored day outright |
| DaySchema.MergeEmptyBody | backend/routes/days.js:79-86 | a body that carries nothing but the stored id changes nothing |
| DaySchema.Normalize | backend/routes/days.js:15-19 | a missing step count or water intake reads 0, a present one is kept, and no other field changes |
| DaySchema.NormalizeIdempotent | backend/routes/days.js:15-19 | normalising twice is normalising once |
| Calories.EntriesKcalAppend | backend/models/Day.js:99-104 | the calories of a list are the sum of the calories of its two parts |
| Calories.SlotsKcalByKey | backend/models/Day.js:96-106 | the day's entries total is the sum of the five slots' totals |
| Calories.PhotosSetSlot | frontend/src/utils/helpers.jsx:11-17 | replacing one slot's photos changes the photo total by that slot's difference |
| Calories.AddPhotoRaisesTotal | frontend/src/utils/helpers.jsx:11-17 | with meals present, appending a photo raises the total by exactly its calories, negative or not |
| Calories.RemovePhotoLowersTotal | frontend/src/utils/helpers.jsx:11-17 | removing by id the photo just added lowers the total by exactly its calories |
| Calories.NoMealsNoTotal | frontend/src/utils/helpers.jsx:3 | without meals the total is 0, whatever photos there are |
| Calories.NoPhotosIsMealsTotal | frontend/src/utils/helpers.jsx:11 | without photos the total is the meals' total |
| Calories.CalculatedCalories | backend/models/Day.js:94-109 | the virtual's nested loops compute the sum over all slots of each entry's first match, with 0 for a missing `meals` or slot; it reads no other field |
| DayOrder.InsertDesc | frontend/src/App.jsx:169 | inserting into a list sorted newest first keeps it sorted and adds exactly that day |
| DayOrder.SortDesc | frontend/src/App.jsx:145 | the sort puts days newest first and is a permutation of its input |
| DayOrder.SortDescMembers | frontend/src/App.jsx:145 | a day is in the sorted list exactly when it is in the input |
| DayOrder.InsertDescStrict | backend/routes/days.js:10-12 | inserting a day with a new id keeps a strictly descending list strict |
| DayOrder.InsertNewId | backend/routes/days.js:10-12 | inserting a day with a new id keeps the list strictly descending and adds just that day |
| DayOrder.FirstWithId | frontend/src/App.jsx:162 | `findIndex` gives the first index with the id, or -1 exactly when no day has it |
| DayRoutes.Status | backend/routes/days.js:36-38 | 400 for an existing day or a bad meal type, 404 for a missing day, 500 for a server error |
| DayRoutes.NewPhoto | backend/routes/days.js:134-139 | the pushed photo keeps the given id or takes the generated one, defaults its calories to 0, and takes the server's time |
| DayRoutes.Patch | backend/routes/days.js:79-86 | the update document carries the id passed in (the body's when it names one, else the route's) and the caller as owner, whatever owner the body names |
| DayRoutes.MergeCarriesBody | backend/routes/days.js:79-86 | after the update the owner is the caller; each of meals, photos, activities, notes, weight, water, steps and total is the body's value (meals, activities and notes trimmed) when the body carries it, and the stored value otherwise (photos: see "## Left out") |
| DayRoutes.DayStore.constructor | backend/models/Day.js:91 | an empty store keeps the one-day-per-owner-and-id invariant |
| DayRoutes.DayStore.List | backend/routes/days.js:8-26 | exactly the caller's days, each normalised, strictly newest first |
| DayRoutes.DayStore.Get | backend/routes/days.js:29-45 | found exactly when the caller has a day with that id; another user's day is 404 |
| DayRoutes.DayStore.Create | backend/routes/days.js:48-74 | an existing day of the caller is refused with 400 and nothing changes; otherwise exactly one document, owned by the caller, is added when it validates |
| DayRoutes.DayStore.Update | backend/routes/days.js:77-93 | an upsert: the caller's day is merged with the body or created with defaults, owned by the caller; other keys are untouched; a rename onto an existing day fails the unique index |
| DayRoutes.DayStore.Delete | backend/routes/days.js:96-112 | the caller's day is removed and nothing else changes; an absent day is 404 |
| DayRoutes.DayStore.AddPhoto | backend/routes/days.js:115-155 | a bad meal type is 400 before any lookup; a missing day is 404; otherwise exactly one photo is appended to that slot and saved |
| DayRoutes.DayStore.RemovePhoto | backend/routes/days.js:158-189 | the same checks, then only that slot loses the photos with that id |
| DayRoutes.CreatedDayValid | backend/routes/days.js:50-69 | a day created within the schema's bounds validates and is owned by the caller |
| DayRoutes.RemoveAbsentPhoto | backend/routes/days.js:176-180 | removing an id no photo of the slot carries is a no-op |
| DayView.MealCalories | frontend/src/components/DayView.jsx:19-26 | a missing list is 0; otherwise the sum of each entry's first match |
| DayView.TotalCaloriesFromMeals | frontend/src/components/DayView.jsx:7-16 | the editor's loop computes the sum of the five slots' entries and ignores photos |
| DayView.EditorTotalAgrees | frontend/src/components/DayView.jsx:7-26 | the editor's total is the sum of its slot titles, the schema's `calculatedCalories`, and the shared helper's total without photos |
| DayView.ParseIntDigitsFirst | frontend/src/components/DayView.jsx:47 | `parseInt` of digits followed by a non-digit reads those digits |
| DayView.ParseIntNatToString | frontend/src/components/DayView.jsx:47 | `parseInt(String(n))` is `n` |
| DayView.ParseIntNoDigit | frontend/src/components/DayView.jsx:47 | text without digits reads NaN |
| DayView.SetMeal | frontend/src/components/DayView.jsx:40-42 | only the given slot changes; every other slot and field stays |
| DayView.SetMealCommutes | frontend/src/components/DayView.jsx:40-42 | setting two different slots gives the same day in either order |
| DayView.SetMealTotal | frontend/src/components/DayView.jsx:40-42 | setting a slot changes the total by exactly that slot's difference |
| DayView.SetWaterIntake | frontend/src/components/DayView.jsx:46-48 | water becomes `parseInt(amount) \|\| 0` and no other field changes |
| DayView.SetStepCount | frontend/src/components/DayView.jsx:49-51 | steps become `parseInt(count) \|\| 0` and no other field changes |
| DayView.SetCountersStoreTypedNumber | frontend/src/components/DayView.jsx:46-51 | a typed number is stored as that number; text without digits is stored as 0 |
| Helpers.TotalCaloriesFromMeals | frontend/src/utils/helpers.jsx:1-19 | the loops compute 0 without meals, else every entry's first match plus every photo's calories |
| Helpers.IsoToday | frontend/src/utils/helpers.jsx:21-28 | for every year: the year's digits, a dash, two digits reading as the month (1-12), a dash, and two digits reading as the day |
| Helpers.IsoTodayReadsBack | frontend/src/utils/helpers.jsx:21-28 | for a four-digit year the id is a `YYYY-MM-DD` full-date (RFC 3339, section 5.6) that reads back as its year, 1-based month and day |
| Helpers.IsoTodayOrder | frontend/src/utils/helpers.jsx:21-28 | for four-digit years, comparing two ids as strings compares the dates, and equal ids are equal dates |
| Helpers.EmptyDay | frontend/src/utils/helpers.jsx:30-43 | the given id, five empty slots, no activities, zero water, steps and total, and no owner, photos, notes or weight |
| Helpers.EmptyDayTotalZero | frontend/src/utils/helpers.jsx:30-43 | the empty day is worth 0 calories, with or without photos |
| Helpers.DemoDay | frontend/src/utils/helpers.jsx:45-59 | the demo day has the given id, is owned by "demo-user", and stores a total of 935 |
| Helpers.DemoDayTotal | frontend/src/utils/helpers.jsx:45-59 | the demo day's stored total of 935 is the computed total of its eight entries |
| Helpers.SpacedEntryValue | frontend/src/utils/helpers.jsx:49-53 | an entry `<name> <digits> kcal` with a digit-free name is worth its digits |
| Helpers.SingleKcal | frontend/src/utils/helpers.jsx:4-9 | a one-entry list is worth that entry |
| Helpers.PairKcal | frontend/src/utils/helpers.jsx:4-9 | a two-entry list is worth the sum of both entries |
| App.TotalCaloriesFromMeals | frontend/src/App.jsx:27-37 | the main page's loop computes 0 without meals, else the sum of each entry's first match; photos are ignored |
| App.SetDayInList | frontend/src/App.jsx:160-172 | a day with a known id replaces the first day with that id in place; a new day is appended and the list sorted newest first |
| App.SetDayInListKeepsOthers | frontend/src/App.jsx:160-172 | replacing keeps the length and every day with another id at its place; appending adds exactly the new day to a list sorted newest first |
| App.Bootstrap | frontend/src/App.jsx:128-151 | the loaded days (none for a non-array), plus the created day when today's is missing, sorted newest first; a throw leaves the list empty |
| App.BootstrapHasToday | frontend/src/App.jsx:135-146 | after a successful start-up, today's day is in the list, the list is sorted, and every loaded day is kept |
| App.DemoBootstrapHasToday | frontend/src/App.jsx:131-146 | with the demo store, the created day is the stamped `emptyDay(todayId)`, so a successful start-up always shows today's day, sorted, with every loaded day kept |
| App.ToggleDayExpansion | frontend/src/App.jsx:174-179 | only that day's expanded flag flips |
| App.ToggleTwice | frontend/src/App.jsx:174-179 | toggling a day twice leaves every flag as it was |
| App.TotalPages | frontend/src/App.jsx:256 | the page count is the ceiling of the day count over ten |
| App.PageSlice | frontend/src/App.jsx:257-259 | page p shows the days from index (p-1)*10, at most ten, as many as remain |
| App.PagesCover | frontend/src/App.jsx:255-259 | every day appears on the page its index falls in, at its place on that page |
| App.PageButtonsStayInRange | frontend/src/App.jsx:331-366 | previous and next keep the page within [1, totalPages], moving by one except on the first and last page |
| App.PageNumbers | frontend/src/App.jsx:344-347 | the number buttons are 1 to totalPages in order |
| App.ControlsShown | frontend/src/App.jsx:331 | the controls are shown exactly when there are more than ten days |
| FoodColumn.Entry | frontend/src/components/FoodColumn.jsx:20 | an entry starts with its name; without calories it is the name alone |
| FoodColumn.Compose | frontend/src/components/FoodColumn.jsx:15-20 | a blank trimmed name gives no entry; otherwise the entry is built from the trimmed fields |
| FoodColumn.Split | frontend/src/components/FoodColumn.jsx:74-88 | an entry without a match goes whole into the name with empty calories; otherwise the calories are the captured digits and the name is trimmed |
| FoodColumn.SplitBranches | frontend/src/components/FoodColumn.jsx:74-88 | the two branches of `startEdit` give the display text and the digits, or the entry and "" |
| FoodColumn.ComposeSplit | frontend/src/components/FoodColumn.jsx:184-188 | an entry composed from a name without "kcal" and digit calories shows those digits, splits back into the trimmed fields, and counts for those calories |
| FoodColumn.MinusSignDropped | frontend/src/components/FoodColumn.jsx:184-188 | calories typed as `-` and digits lose the sign: the badge is the digits and they count positively |
| FoodColumn.ComposeNameOnly | frontend/src/components/FoodColumn.jsx:20 | without calories, a digit-free name composes to itself, splits back whole, and is worth 0 |
| FoodColumn.RemoveAt | frontend/src/components/FoodColumn.jsx:69-72 | exactly the given index is removed and the other entries keep their order; an index out of range changes nothing |
| FoodColumn.RemoveAtUpdated | frontend/src/components/FoodColumn.jsx:69-72 | removing a row just overwritten gives what removing the original row gives |
| FoodColumn.RemoveAtKcal | frontend/src/components/FoodColumn.jsx:69-72 | removing an entry lowers the column's calories by exactly its value and keeps every other entry |
| FoodColumn.AddEntry | frontend/src/components/FoodColumn.jsx:15-37 | a blank name changes nothing; otherwise one entry is appended after the others and both input fields are cleared |
| FoodColumn.AddEntryKcal | frontend/src/components/FoodColumn.jsx:15-25 | an added entry raises the column's calories by exactly its value |
| FoodColumn.DelAsWritten | frontend/src/components/FoodColumn.jsx:69-72 | `del` as written removes the entry but leaves the edit index, the edit fields and the input fields where they were |
| FoodColumn.Deleted | frontend/src/components/FoodColumn.jsx:69-72 | `del` as intended removes the entry, and the edit row follows its entry or closes when that entry is removed; with no row in edit or an index out of range the edit index stays; the input fields are kept |
| FoodColumn.EditStarted | frontend/src/components/FoodColumn.jsx:74-88 | the row in edit is the given index and the edit fields hold the entry's split |
| FoodColumn.ReplaceInEdit | frontend/src/components/FoodColumn.jsx:98-99 | only the entry in edit is replaced; nothing changes without a row in edit or with a blank name |
| FoodColumn.Committed | frontend/src/components/FoodColumn.jsx:90-104 | commit replaces the entry in edit and closes the edit; it is a no-op without a row in edit or with a blank name |
| FoodColumn.CommittedCases | frontend/src/components/FoodColumn.jsx:90-104 | the whole new state of each branch of `commitEdit` |
| FoodColumn.AutoCommittedCases | frontend/src/components/FoodColumn.jsx:106-117 | the whole new state of each branch of `autoCommitEdit` |
| FoodColumn.AutoCommitted | frontend/src/components/FoodColumn.jsx:106-117 | the auto-commit replaces the entry in edit and the row stays in edit |
| FoodColumn.ReplaceInEditKcal | frontend/src/components/FoodColumn.jsx:98-99 | replacing the entry in edit changes the calories by exactly the difference of the two entries |
| FoodColumn.StartCommitRoundTrip | frontend/src/components/FoodColumn.jsx:74-104 | starting an edit and committing it unchanged writes back the same entry |
| FoodColumn.StaleEditIndexAsWritten | frontend/src/components/FoodColumn.jsx:69-104 | with `[a, b, c]`, editing `b`, deleting `a` and committing `x` gives `[b, x]`: the wrong entry is overwritten |
| FoodColumn.StaleEditIndexCorrected | frontend/src/components/FoodColumn.jsx:69-104 | the same steps with the corrected delete give `[x, c]` |
| FoodColumn.Column.constructor | frontend/src/components/FoodColumn.jsx:4-11 | the column shows its items with empty fields and no row in edit |
| FoodColumn.Column.Add | frontend/src/components/FoodColumn.jsx:15-25 | the new state is `AddEntry` of the two input fields |
| FoodColumn.Column.AutoAdd | frontend/src/components/FoodColumn.jsx:27-37 | the new state is `AddEntry` of the given name and calories |
| FoodColumn.Column.SetFoodName | frontend/src/components/FoodColumn.jsx:39-41 | only the name field changes |
| FoodColumn.Column.SetCalories | frontend/src/components/FoodColumn.jsx:54-56 | only the calories field changes |
| FoodColumn.Column.Del | frontend/src/components/FoodColumn.jsx:69-72 | the new state is the corrected `Deleted` |
| FoodColumn.Column.StartEdit | frontend/src/components/FoodColumn.jsx:74-88 | the new state is `EditStarted` |
| FoodColumn.Column.SetEditText | frontend/src/components/FoodColumn.jsx:119-121 | only the edit name field changes |
| FoodColumn.Column.SetEditCalories | frontend/src/components/FoodColumn.jsx:132-134 | only the edit calories field changes |
| FoodColumn.Column.CommitEdit | frontend/src/components/FoodColumn.jsx:90-104 | the new state is `Committed` |
| FoodColumn.Column.AutoCommitEdit | frontend/src/components/FoodColumn.jsx:106-117 | the new state is `AutoCommitted` |
| Client.Stamped | frontend/src/api.js:126 | the stored day is owned by "demo-user" and is otherwise the given day |
| Client.Find | frontend/src/api.js:92-100 | the result is the first stored day with the id, and exists exactly when some day has it |
| Client.Created | frontend/src/api.js:122-130 | the stamped day is appended after the stored days, with no duplicate check |
| Client.Updated | frontend/src/api.js:146-157 | the first day with the id is replaced by the stamped day, which is returned; with none, the store is unchanged and the input is returned |
| Client.Upserted | frontend/src/api.js:174-182 | upsert updates when the id is stored and creates otherwise |
| Client.CountIdPositive | frontend/src/api.js:174-182 | an id is counted at least once exactly when it is stored |
| Client.CreateDuplicates | frontend/src/api.js:122-130 | creating an id that is already stored stores it once more |
| Client.UpsertCount | frontend/src/api.js:174-182 | after an upsert the id is stored once if it was absent, as often as before if present; other ids keep their counts |
| Client.UpsertAllKeepsIdsUnique | frontend/src/api.js:174-182 | repeated upserts never store an id twice in a store that held each id at most once |
| Client.UpsertThenFind | frontend/src/api.js:174-182 | after an upsert, `getDay` of the id reads back the stamped day |
| Client.DemoStore.constructor | frontend/src/api.js:125 | nothing stored reads as `[]` |
| Client.DemoStore.GetDay | frontend/src/services/api.js:59-67 | the loop finds what `Find` specifies |
| Client.DemoStore.CreateDay | frontend/src/services/api.js:89-96 | the store becomes `Created` and the stamped day is returned |
| Client.DemoStore.UpdateDay | frontend/src/services/api.js:112-122 | the store and the answer are those of `Updated` |
| Client.DemoStore.UpsertDay | frontend/src/services/api.js:138-149 | the store becomes `Upserted` and the stamped day is returned |
| Client.ServerLookup | frontend/src/api.js:102-119 | a 404, or a failure whose message mentions "404", is `null`; any other failure throws; a success is the body |
| Client.UpsertCall | frontend/src/api.js:174-189 | update under the day's own id exactly when the lookup found a day; create when it found none or threw |
| Client.AuthHeaders | frontend/src/api.js:54-60 | a JSON content type always, and a Bearer authorization exactly when a token is set |
| Client.AuthClient.constructor | frontend/src/services/api.js:6 | the token starts as the stored one |
| Client.AuthClient.SetAuthToken | frontend/src/services/api.js:10-17 | the token is kept as given; it is stored when truthy and removed otherwise |
| Client.AuthClient.GetAuthHeaders | frontend/src/services/api.js:23-29 | the headers are `AuthHeaders` of the current token |
| Client.DemoChangePassword | frontend/src/services/api.js:243-247 | the demo password change always answers with the success message |
| AuthRoutes.Status | backend/routes/auth.js:9-58 | 400 for a taken username or missing passwords, 401 for bad credentials or a wrong old password, 404 for a missing user, 500 for a server error |
| AuthRoutes.Message | backend/routes/auth.js:17-182 | the text of each failure: "Invalid credentials", "Username already exists", "User not found", "Please provide old and new password", "Old password is incorrect"; only a server error says "Server error" |
| AuthRoutes.Public | backend/routes/auth.js:105-123 | the answer keeps the user's id and username and carries no password |
| AuthRoutes.PublicIgnoresPassword | backend/routes/auth.js:105-123 | the answer is the same whatever the password is |
| AuthRoutes.NewUser | backend/routes/auth.js:21-30 | the new user has the body's username and password and the given id |
| AuthRoutes.Registered | backend/routes/auth.js:9-58 | a taken username is refused with nothing stored; otherwise the user is stored under its username when the schema accepts it, and answered without its password |
| AuthRoutes.Login | backend/routes/auth.js:61-103 | success exactly when the user found exists and the password matches: the named user, or with no username the first user of the collection; both failures are the same "Invalid credentials" |
| AuthRoutes.LoginWithoutUsername | backend/routes/auth.js:63-66 | with no username, a password matching the first stored user logs in as that user; an empty store refuses it |
| AuthRoutes.Merged | backend/routes/auth.js:136-141 | each profile field is overwritten only by a truthy value; id, username and password never change |
| AuthRoutes.MergedIdempotent | backend/routes/auth.js:136-141 | sending the same profile twice changes nothing the second time |
| AuthRoutes.FalsyProfileChangesNothing | backend/routes/auth.js:136-141 | a body of missing, empty or zero fields leaves the user as it was |
| AuthRoutes.ProfileUpdated | backend/routes/auth.js:126-163 | a missing user is 404 with nothing stored; otherwise the merged user is stored when the schema accepts it |
| AuthRoutes.PasswordUpdated | backend/routes/auth.js:166-196 | missing passwords are 400 before any lookup; a wrong old password is 401; every failure stores nothing; success replaces only the password |
| AuthRoutes.Listed | backend/routes/auth.js:199-207 | the listing is exactly the users' password-free views |
| AuthRoutes.RegisterThenLogin | backend/routes/auth.js:9-103 | a user just registered logs in with its password and sees the same view |
| AuthRoutes.ChangeThenLogin | backend/routes/auth.js:166-196 | after a password change the new password logs in and a password it does not match is refused |
| AuthRoutes.ProfileKeepsCredentials | backend/routes/auth.js:126-163 | a profile update never changes who can log in with which password |
| AuthRoutes.SaveKeepsKeys | backend/routes/auth.js:143 | saving a user under its own username keeps every user keyed by its username |
| AuthRoutes.OperationsKeepKeys | backend/routes/auth.js:15-18 | register, profile update and password change keep usernames unique as keys |
| AuthRoutes.UserStore.constructor | backend/routes/auth.js:15 | an empty store is keyed by username |
| AuthRoutes.UserStore.Register | backend/routes/auth.js:9-58 | the answer and the new store are those of `Registered` |
| AuthRoutes.UserStore.SignIn | backend/routes/auth.js:61-103 | the answer is `Login`'s: for the named user, or with no username for some stored user; with none stored it is the 401 |
| AuthRoutes.UserStore.UpdateProfile | backend/routes/auth.js:126-163 | the fields are assigned one by one; the answer and the new store are those of `ProfileUpdated` |
| AuthRoutes.UserStore.ChangePassword | backend/routes/auth.js:166-196 | the answer and the new store are those of `PasswordUpdated` |

## Left out

- Network and HTTP: the `fetch` calls, Express routing, the `authenticateToken` middleware, and `server.js`. They are I/O. A route's answer is modelled as a result value.
- JWT signing and password hashing. They are foreign calls. The password check is the store's abstract `matches` function; `models/User.js` is not part of this model.
- User schema validation. It is the abstract `accepts` function, because `models/User.js` is not part of this model.
- Day timestamps. `timestamps: true` in `backend/models/Day.js` adds `createdAt` and `updatedAt`, written on every save and update. The model's day record has neither field: no route reads them.
- Registration without a username. Its behaviour depends on `models/User.js`, which is not part of this model.
- The legacy `GET /auth/:id` route and the per-route text of server-error messages. They are I/O plumbing.
- Concurrency and atomicity. This covers two upserts at once and the check-then-insert of `POST /days`. Both are the database's concern; the store is sequential and the unique index is the map's key.
- Debounce timers in the food editor and the minute clock on the main page. They are timing; only the state changes their handlers make are modelled.
- Clocks. `isoToday` takes the local year, month index and date as parameters. Photo ids from `Date.now()` and photo timestamps are parameters too.
- Floating point and display math: BMI, weights as reals with no arithmetic, and percentages.
- The demo `getDays` seeding with two demo days, and JSON and `localStorage` round trips. They are I/O; the demo store is the array itself.
- Non-ASCII white space in `\s` and `trim`. Only ASCII white space (space, tab, line feed, vertical tab, form feed, carriage return) is modelled.
- `parseInt`'s hexadecimal prefix and photo calories that are not numbers. A photo's calories are already the result of `parseInt` (None for NaN).
- Photo persistence. The day schema declares no `mealPhotos` path, so Mongoose may drop photos on save. The photo routes are modelled on the record as the route code builds it.
- DaySchema.NewDocument: keeps the body's `mealPhotos`. Under Mongoose's default strict mode, `new Day(dayData)` strips the field, because the schema has no such path.
- DaySchema.Merge: sets `mealPhotos` from the body. Under strict mode, the `$set` built by `findOneAndUpdate` would strip that field.
- DayRoutes.MergeCarriesBody: states that the body's `mealPhotos` are stored. Under strict mode the server would strip them, as for DaySchema.Merge.
- DayRoutes.DayStore.Create: a body `id` of `""` stands for a missing id. The source's `findOne({ id: "", userId })` finds nothing, and `save()` then fails the required validator (500). The model answers 400 when the caller has any day.
- DayRoutes.DayStore.Update: a body `id` of `""` stands for a missing id, so the day keeps `dayId`. The source's `$set` would write `id: ""`, since no validator runs on the update.
- `null` values in JSON bodies. They are modelled as missing fields.
- DayOrder.SortDesc: the in-place `Array.prototype.sort` is modelled on a sequence as a stable insertion sort, not as an update of the array in place.
- FoodColumn.Column: the entries the component shows come from its parent through `items` and `onChange`. The model keeps them as a field of the component and updates it directly.
- DayView.TotalCaloriesFromMeals: `meals` is present by its type. The source has no guard and throws on a missing `meals`.
- Client.UpsertCall: the create or update is returned without being awaited, so its own failure is not caught and does not fall back. The model only says which call is made.

## Findings

| source | as written | input that shows it | evidently intended | confidence | as-written member | corrected member |
|---|---|---|---|---|---|---|
| frontend/src/components/FoodColumn.jsx:69-72 | `del(idx)` removes the entry but leaves `editIndex` unchanged, so a later `commitEdit` writes to whatever entry now sits at the old index | entries `[a, b, c]`: `startEdit(1)`, `del(0)`, then commit the name `x`; the result is `[b, x]` | the edit follows its entry: `[x, c]`; deleting the entry in edit cancels the edit | not executed | FoodColumn.StaleEditIndexAsWritten | FoodColumn.StaleEditIndexCorrected |
