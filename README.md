# DayTracker entry log: a Dafny model

DayTracker is a single-page diary in `DayTracker/script.js`. A user picks
a date, a time slot, a category and one of that category's emoji, and
writes an optional note. Each save stores one record in the user's
collection. A feed lists the records newest day first, with a date header
for each day.

This project models the logic behind that page, without the DOM and without
`localStorage`. It has five modules:

- `Text` (text.dfy)
  - JavaScript's `String.prototype.trim`, used on the note text and on new
    user names.
  - The code-point order that `localeCompare` gives to `YYYY-MM-DD` date
    strings.
- `Entries` (entries.dfy)
  - The time slots and their `timeOrder` ordinals.
  - The category emoji lists (`CATEGORIES`) and the entry record.
  - The two by-id operations the store uses: `findIndex`/`find` and the
    deleting `filter`.
- `Feed` (feed.dfy)
  - The data part of `loadEntries`.
  - The three-key comparator and the sorted copy of the collection.
  - The one-pass grouping that emits a header whenever the date changes,
    and the Today/Yesterday/long-form header text.
  - The "No entries yet." placeholder for an empty collection.
- `Tracker` (tracker.dfy) has the class `Session`, which holds:
  - the page's `state` object, the active user's stored collection and
    the note box text;
  - `saveEntry`, `editEntry`, `cancelEdit`, `deleteEntry`, the selection
    logic of `renderEmojiOptions` and the selection handlers;
  - the feed walk of `loadEntries`, written as the loop the source runs.
- `Users` (users.dfy) has the class `UserList`: the `tracker_users` list
  with `createUser` and `deleteUser`.

Environment readings become parameters:

- The `Date.now()` reading that becomes a new record's id is `newId`.
- The `new Date()` readings stamped into `createdAt` and `updatedAt` are
  `now`.
- Today's date becomes `today`.
- The dates used for the headers, plus `toLocaleDateString`, become the
  `Calendar` value: `today`, `yesterday` and an uninterpreted `longForm`.
- The answer to `confirm` becomes `confirmed`.

Four behaviours of the code are easy to misread; the model follows the code:

- Switching category keeps the selected emoji when it is also on the new
  list. For example, 😴 survives a switch between Mood and Sleeping. The
  emoji is reset only otherwise, and never during an edit
  (script.js:199-201). The comment at script.js:198 describes the keep
  condition as editing and the emoji matching; the code keeps the emoji
  when either holds.
- Neither a save nor an edit checks that the emoji belongs to the
  category, so a stored record may carry an emoji from another list. No
  such consistency is claimed.
- An update whose id is no longer stored writes nothing, but still ends
  the edit.
- The source takes the fresh id from `Date.now()`, which does not
  guarantee uniqueness. The model asks the caller for an unused id, and
  with it keeps the ids of the collection unique (`Session.Valid`).

## Model

| member | source | states |
|---|---|---|
| Entries.Ordinal | DayTracker/script.js:327 | the `timeOrder` ordinal of a slot lies in 0..3 |
| Entries.OrdinalInjective | DayTracker/script.js:327 | distinct slots have distinct `timeOrder` ordinals |
| Entries.Emojis | DayTracker/script.js:12-18 | every category offers a non-empty list of non-empty emoji |
| Entries.FindIndex | DayTracker/script.js:225 | `findIndex` by id: a result is a position holding the id with no earlier one; no result means no record holds it |
| Entries.FindIndexIs | DayTracker/script.js:225 | the first position holding the id is the one `findIndex` returns |
| Entries.Remove | DayTracker/script.js:316-317 | the filter keeps exactly the records whose id differs from the argument |
| Entries.RemoveConcat | DayTracker/script.js:317 | the filter works piecewise, so survivors keep their original order |
| Entries.RemoveAbsent | DayTracker/script.js:317 | deleting an id no record carries changes nothing |
| Entries.RemoveIdempotent | DayTracker/script.js:317 | repeating a delete changes nothing |
| Entries.RemoveAt | DayTracker/script.js:317 | with unique ids, deleting a present id removes exactly that record: the collection loses one element and the rest keep their order |
| Entries.RemoveKeepsUnique | DayTracker/script.js:317 | deleting keeps ids unique |
| Entries.AppendKeepsUnique | DayTracker/script.js:251 | appending a record with an unused id keeps ids unique |
| Entries.ReplaceKeepsUnique | DayTracker/script.js:227-235 | replacing a record by one with the same id keeps ids unique |
| Text.IsWhitespace | DayTracker/script.js:218 | definition: the ECMAScript WhiteSpace and LineTerminator characters that `trim` strips; used by the contracts of TrimStart, TrimEnd and Trim |
| Text.TrimStart | DayTracker/script.js:218 | drops exactly a whitespace prefix; what remains starts with non-whitespace |
| Text.TrimEnd | DayTracker/script.js:218 | drops exactly a whitespace suffix; what remains ends with non-whitespace |
| Text.Trim | DayTracker/script.js:218 | `trim` has no whitespace at either end, and is empty exactly when the input is all whitespace (the `!text` and `!name` tests) |
| Text.TrimPadded | DayTracker/script.js:156 | `trim` removes exactly the whitespace padding around a trimmed core |
| Text.TrimFixes | DayTracker/script.js:156 | `trim` leaves a string unchanged exactly when it is already trimmed |
| Text.TrimIdempotent | DayTracker/script.js:156 | trimming twice equals trimming once |
| Text.Less | DayTracker/script.js:330 | definition: code-point lexicographic order on date strings; its order properties are LessIrreflexive, LessAsymmetric, LessTransitive and LessTotal |
| Text.LessIrreflexive | DayTracker/script.js:330 | no date string precedes itself |
| Text.LessAsymmetric | DayTracker/script.js:330 | the date order is asymmetric |
| Text.LessTransitive | DayTracker/script.js:330 | the date order is transitive |
| Text.LessTotal | DayTracker/script.js:330 | any two distinct date strings are ordered |
| Feed.LocaleCompare | DayTracker/script.js:330 | definition: `localeCompare` as -1, 0 or 1 by `Less`; its meaning is part of CompareMeaning and CompareFlip |
| Feed.Compare | DayTracker/script.js:329-333 | definition: the sort comparator; its meaning is in CompareMeaning, CompareFlip and CompareTransitive |
| Feed.CompareMeaning | DayTracker/script.js:329-333 | the comparator lets `a` precede `b` exactly when: `a` has the later date; or the same date and an earlier slot; or the same date and slot and a creation time no older |
| Feed.CompareFlip | DayTracker/script.js:329-333 | the comparator is antisymmetric |
| Feed.CompareTransitive | DayTracker/script.js:329-333 | the comparator is transitive |
| Feed.Insert | DayTracker/script.js:329 | an insertion step adds exactly the one entry |
| Feed.InsertSorted | DayTracker/script.js:329-333 | inserting into a comparator-sorted sequence keeps it sorted |
| Feed.SortFeed | DayTracker/script.js:329-333 | the sorted copy is a permutation of the collection, and every neighbouring pair is in comparator order |
| Feed.SortFeedAdjacent | DayTracker/script.js:325-333 | neighbours in the feed follow the three keys: date descending, then slot ascending, then creation time descending |
| Feed.TiesCons | DayTracker/script.js:329-333 | the tied entries of a sequence are those of its head and of its tail |
| Feed.SameKeysTie | DayTracker/script.js:329-333 | two entries with the same date, slot and creation time tie under the comparator |
| Feed.InsertTies | DayTracker/script.js:329-333 | inserting an entry puts it before every entry it ties with, and leaves the order of the others unchanged |
| Feed.SortFeedStable | DayTracker/script.js:329-333 | the sort is stable: for every key, the entries that tie with it come out in their storage order |
| Feed.SortedPairwise | DayTracker/script.js:329-333 | in a sorted sequence every pair, not just neighbours, is in comparator order |
| Feed.SortedGroupsDates | DayTracker/script.js:329-330 | after sorting, records with the same date stand together |
| Feed.Label | DayTracker/script.js:352-357 | the header reads "Today" for today's date, else "Yesterday" for yesterday's, else the long-form date |
| Feed.Group | DayTracker/script.js:342-379 | definition: the lines the walk emits, one Step per record; its properties are GroupItems, GroupHeaders and GroupWellGrouped |
| Feed.Step | DayTracker/script.js:346-378 | definition: the lines for one record, a header when its date differs from the previous record's, then the item; its counts are in StepCounts |
| Feed.FeedView | DayTracker/script.js:322-340 | definition: the placeholder for an empty collection, otherwise the walk over the sorted copy; its properties are FeedViewEmpty and FeedViewLines, and Session.LoadEntries is proved equal to it |
| Feed.GroupSnoc | DayTracker/script.js:344-360 | each record of the walk adds exactly its own step to the lines |
| Feed.StepCounts | DayTracker/script.js:346-362 | one record adds one item, plus one header when its date differs from the previous record's |
| Feed.ItemsConcat | DayTracker/script.js:344 | the items and the header count of joined line lists add up |
| Feed.GroupItems | DayTracker/script.js:344-379 | the feed shows every walked record exactly once, in order |
| Feed.GroupHeaderStep | DayTracker/script.js:346 | the last record adds a header exactly when its date differs from its predecessor's |
| Feed.DatesOfStep | DayTracker/script.js:342-360 | the last record of the walk adds one distinct date exactly when its date is new to the records before it |
| Feed.NewDate | DayTracker/script.js:346 | in a date-grouped walk, a date change brings a date not seen before |
| Feed.DatesOfSnoc | DayTracker/script.js:344 | the dates of a walk are those of its prefix plus the last record's |
| Feed.GroupHeaders | DayTracker/script.js:342-360 | when equal dates stand together there is exactly one header per distinct date |
| Feed.AppendLine | DayTracker/script.js:359-378 | appending a line that fits its neighbours keeps every pair and triple of lines well formed |
| Feed.GroupWellGrouped | DayTracker/script.js:342-379 | the lines start with a header and end with the last record's item; each header is followed by an item and labels it; neighbouring items share a date; a header between two items separates two dates |
| Feed.SameDates | DayTracker/script.js:329 | sorting does not change the set of dates |
| Feed.FeedViewEmpty | DayTracker/script.js:337-340 | the placeholder "No entries yet." is shown exactly when the collection is empty |
| Feed.FeedViewLines | DayTracker/script.js:322-379 | a non-empty collection shows each stored record once, in comparator order, well grouped, with one header per distinct date |
| Text.LessCommonPrefix | DayTracker/script.js:330 | date strings with a common prefix compare as their remainders |
| Text.ConsecutiveDays | DayTracker/script.js:330 | "2025-11-20" precedes "2025-11-21" and not the other way round |
| Feed.InsertPast | DayTracker/script.js:329 | an entry that may not precede the head is inserted behind it |
| Feed.FeedOrderExample | DayTracker/script.js:329-333 | two records of one day (Night, Morning) and one of a later day are shown later day first, then Morning, then Night |
| Feed.TieBreakExample | DayTracker/script.js:332 | in one date and slot the later creation is shown first |
| Tracker.Normalised | DayTracker/script.js:195-201 | outside an edit the selected emoji ends on the category's list; it is kept when already listed or during an edit; otherwise it becomes the first listed emoji |
| Tracker.NormalisedIdempotent | DayTracker/script.js:199-201 | rendering the options twice selects what rendering once does |
| Tracker.SharedEmojiSurvives | DayTracker/script.js:12-18 | 😴 survives a switch to Mood or Sleeping; a switch to Eating turns it into 🥗 |
| Tracker.CreateThenDelete | DayTracker/script.js:251 | deleting the record just created restores the collection |
| Tracker.UpdateKeepsPosition | DayTracker/script.js:225-227 | after an update the record is found at the same position |
| Tracker.Session.Editing | DayTracker/script.js:199-223 | definition: the truthiness test `state.editingId`, under which an empty id counts as no edit; used by RenderEmojiOptions, SelectCategory and SaveEntry |
| Tracker.Session.constructor | DayTracker/script.js:2-9 | the initial state (Morning, Eating, no edit, empty note), followed by init's option rendering, which selects 🥗 |
| Tracker.Session.RenderEmojiOptions | DayTracker/script.js:194-201 | the selected emoji becomes its normalised form; nothing else changes |
| Tracker.Session.PickDate | DayTracker/script.js:75-79 | the date picker sets only the current date |
| Tracker.Session.SelectTime | DayTracker/script.js:84-90 | a time button sets only the slot |
| Tracker.Session.SelectCategory | DayTracker/script.js:92-98 | a category button sets the category and normalises the emoji against it |
| Tracker.Session.PickEmoji | DayTracker/script.js:208-212 | clicking an offered emoji selects it |
| Tracker.Session.TypeNote | DayTracker/script.js:218 | typing sets only the note text that the save reads |
| Tracker.Session.SaveEntry | DayTracker/script.js:217-257 | the save has three outcomes. (1) Empty trimmed text and no emoji: nothing changes. (2) During an edit: the record found by id is replaced in place; id and createdAt are kept, the selection and trimmed text are taken, and updatedAt is stamped. An absent id leaves the collection unchanged. Either way the edit ends. (3) Otherwise a record built from the selection is appended. The selection always stays and ids stay unique |
| Tracker.Session.EditEntry | DayTracker/script.js:259-289 | an absent id changes nothing. A present id copies the first such record's date, slot, category, note and emoji (kept as stored when the id is non-empty) and starts the edit; the collection and its unique ids are untouched |
| Tracker.Session.CancelEdit | DayTracker/script.js:291-312 | ends the edit, clears the note, resets to today, Morning and Eating; the emoji ends on the Eating list; the collection and its unique ids are untouched |
| Tracker.Session.DeleteEntry | DayTracker/script.js:314-320 | a confirmed delete filters the id out, keeping ids unique; an unconfirmed one changes nothing |
| Tracker.Session.LoadEntries | DayTracker/script.js:322-380 | the walk over the sorted copy, with its running current date, produces exactly the feed view of the stored collection |
| Users.Without | DayTracker/script.js:172 | the filter keeps exactly the names other than the given one |
| Users.WithoutConcat | DayTracker/script.js:172 | the filter works piecewise, so the remaining names keep their order |
| Users.WithoutKeepsDistinct | DayTracker/script.js:172 | filtering keeps the list free of duplicates |
| Users.CreateThenDeleteUser | DayTracker/script.js:161-172 | deleting a just-created user restores the list |
| Users.AppendKeepsWellFormed | DayTracker/script.js:160-161 | appending a new trimmed non-empty name keeps the list duplicate-free and well formed |
| Users.UserList.constructor | DayTracker/script.js:159 | the stored list, with an empty input box |
| Users.UserList.CreateUser | DayTracker/script.js:155-166 | an empty trimmed name or one already listed changes nothing; otherwise the trimmed name is appended and the input box cleared; the list stays duplicate-free and trimmed |
| Users.UserList.DeleteUser | DayTracker/script.js:168-173 | a confirmed delete filters the name out; an unconfirmed one changes nothing |

## Left out

- DOM work and rendering.
  - This covers element lookups, `classList` toggles, the `innerHTML`
    templates and their lack of HTML escaping, and `window.scrollTo`.
  - It also covers the consent modal, the login and logout screen
    switches, and `renderUserList`.
  - All of this is presentation. The feed is modelled as a list of
    header and item lines.
- `localStorage` and JSON.
  - `getData`, `saveData`, the `tracker_users` key, `storage_consent` and
    the per-user key are external storage.
  - The collection and the user list are fields that the methods reassign.
- `login`, `logout` and `currentUser` only choose which stored collection
  is active. A `Session` is the active user's collection.
- Users.UserList.DeleteUser: the removal of the deleted user's
  `tracker_data_<user>` record is not modelled (script.js:176), because
  the other users' collections are storage outside the model.
- Clocks.
  - `Date.now()`, `new Date()` and `toISOString()` are parameters.
  - `createdAt` and `updatedAt` are integer milliseconds rather than ISO
    strings. The comparator's `new Date(b) - new Date(a)` therefore
    becomes a subtraction.
- Feed.Label: today and yesterday are one `Calendar` reading for the whole
  walk. The source reads the clock again for each header, so a walk across
  midnight is not modelled.
- LocaleCompare: `localeCompare` is modelled as code-point order. That
  agrees with it on `YYYY-MM-DD` strings, but not on arbitrary text in
  every locale.
- `toLocaleDateString` is locale-dependent library output. It is the
  uninterpreted `Calendar.longForm`.
- `confirm()` is the `confirmed` parameter.
- Feed.SortFeed: the engine's `Array.prototype.sort` algorithm is not
  source code.
  - The model sorts by insertion.
  - The contract is stated the way the source relies on it: a permutation
    in comparator order.
  - Records that the comparator ties (same date, slot and creation time)
    keep their storage order (`SortFeedStable`), as ES2019 and later
    require of `Array.prototype.sort`.
  - The source sorts `data` in place. The model works on a sorted copy,
    which is the same thing, since `data` is local to `loadEntries`.
- Text.Trim: strings are sequences of code points, not UTF-16 units, so
  `trim` is modelled on code points.
- Tracker.Session.SaveEntry: the button caption and the cancel button's
  visibility are not modelled. The final `loadEntries` call is
  `LoadEntries`, a separate method.
