# Contact dashboard: favorites store, activity histogram and theme preference

This project is a Dafny model of the three pieces of logic in a mobile contacts
app that are not UI or I/O:

- **The favorites store** (`StorageService`). It keeps an ordered list of
  favorite contacts `{id, user, timestamp}`. The whole list is stored as one
  blob under the key `contact_favorites`. A read fails soft to the empty list.
  Adding appends only when the id is absent. Removing filters by id. Toggling
  does one or the other and returns the new membership. An error from a write
  is passed back to the caller.
- **The hourly activity histogram** (`TimestampTrackerService`). It builds six
  buckets for the hours of the trailing window that ends at the current hour,
  oldest first. It then counts into them every favorite whose hour of day lies
  in that window. `formatHour` turns an hour of the day into a 12-hour-clock
  label.
- **The theme preference** (`ThemeContext`). The preference cycles
  system → light → dark → system and is saved under `user_theme_preference`. A
  saved value is loaded only if it is one of the three names. The preference
  resolves against the platform's colour scheme. Each preference has a fixed
  icon and label.

Files:

- `wrappers.dfy`: `Option` and `Result`.
- `types.dfy`: the record shapes from `types/index.d.ts`. `User` leaves out
  `location` and `gender`, since only `id` matters to the store.
- `storage.dfy`: the list functions and the `StorageService` class.
- `timestamp_tracker.dfy`: the histogram and the labels.
- `theme_context.dfy`: the theme state machine and the `ThemeProvider` class.

How the environment is modelled:

- **Storage.** `StorageService.stored` is the decoded value under the favorites
  key. `None` stands for a missing key, an unreadable key or a blob that does
  not parse, since all three read as the empty list.
  `ThemeProvider.saved` is the value under the theme key.
- **Write outcome.** Whether the storage adapter accepts a write is the
  parameter `writeFails`. A refused write leaves the stored value as it was.
- **Clock.** `Date.now()` is the parameter `now`.
- **Local time.** `new Date(t).getHours()` is the parameter
  `localHour: int -> int`, required to give an hour in 0..23. The current hour
  is `localHour(now)`.
- **Platform scheme.** `Appearance.getColorScheme()` and the change listener
  are the parameter `reported: Option<string>`.

Two behaviours of the code worth knowing:

- `removeFavorite` writes the filtered list even when the id is absent. A
  missing or corrupt blob therefore becomes an empty stored list, and a
  refused write is reported even though nothing was removed.
- `isFavorite` puts no condition on the id it is given, for example that it
  be non-empty.

Two remarks on the histogram:

- The histogram is keyed by hour of day only. A favorite recorded on an
  earlier day at an hour inside the window is counted, as the code does.
  `CountsDependOnHourOfDayOnly` states this.
- All `%` operands in the source are non-negative for hours in 0..23. There
  JavaScript's truncating `%` and Dafny's Euclidean `%` agree.

## Model

| member | source | states |
|---|---|---|
| Storage.Contains | services/StorageService.ts:31 | `some`: true exactly when some entry of the list has the given id |
| Storage.FindIndex | services/StorageService.ts:49 | `findIndex`: -1 exactly when the id is absent; otherwise the position of the first entry with that id |
| Storage.Without | services/StorageService.ts:64 | `filter`: keeps only entries whose id differs and every such entry; the id is absent afterwards; a list without the id is returned unchanged |
| Storage.StorageService.GetFavorites | services/StorageService.ts:17-25 | returns the stored list when there is one, and the empty list when the key is absent or could not be read or parsed |
| Storage.StorageService.IsFavorite | services/StorageService.ts:28-36 | true exactly when some stored entry's id equals the given id |
| Storage.StorageService.SetItem | services/StorageService.ts:52 | a successful write replaces the stored list; a refused write leaves it and returns the error |
| Storage.StorageService.AddFavorite | services/StorageService.ts:39-58 | if the id is present, nothing is written and the result is success; if it is absent, `{id, user, timestamp: now}` is appended after the unchanged earlier entries, or on a refused write the store is unchanged and the error is returned; keeps ids unique |
| Storage.StorageService.RemoveFavorite | services/StorageService.ts:61-73 | always writes the entries with a different id; on success the id is no longer a favorite; a refused write returns the error and changes nothing; keeps ids unique |
| Storage.StorageService.ToggleFavorite | services/StorageService.ts:76-91 | succeeds exactly when the write succeeds; the result is the negation of the old membership and equals the new membership; the new list is the removal or the append; keeps ids unique |
| Storage.ToggleTwice | services/StorageService.ts:76-91 | two successful toggles report opposite memberships and end with the original membership |
| Storage.AddedAppendsOrKeeps | services/StorageService.ts:49-52 | adding an absent id appends exactly the new entry at the end, leaving the earlier entries as they were; adding a present id changes nothing; afterwards the id is present |
| Storage.AddedIdempotent | services/StorageService.ts:49-53 | adding twice equals adding once, whatever the second clock reading |
| Storage.AddedPreservesUnique | services/StorageService.ts:49-51 | appending keeps "no two entries share an id" |
| Storage.WithoutPreservesUnique | services/StorageService.ts:64 | filtering keeps "no two entries share an id" |
| Storage.WithoutConcat | services/StorageService.ts:64 | filtering distributes over concatenation, so the kept entries stay in their original order |
| Storage.RemoveDeletesOneEntry | services/StorageService.ts:63-68 | in a list with unique ids, removing a present id deletes exactly the entry at its position and keeps every other entry in order |
| Storage.ToggledInvertsMembership | services/StorageService.ts:78-85 | a toggle inverts membership of the contact's id |
| Storage.ToggleTwiceRestoresMembership | services/StorageService.ts:76-86 | two toggles restore the membership; starting from an absent id they restore the very same list |
| Storage.ToggledPreservesUnique | services/StorageService.ts:80-85 | toggling keeps ids unique |
| TimestampTracker.GetHourlyStats | services/TimestampTrackerService.ts:15-45 | the result is the six-bucket histogram `HourlyStatsOf` of the stored favorites for hour `localHour(now)`; the last bucket is the current hour; the counts add up to the favorites inside the window |
| TimestampTracker.IndexOfHour | services/TimestampTrackerService.ts:39 | `findIndex` on the buckets: -1 exactly when no bucket has the hour; otherwise the first bucket with it |
| TimestampTracker.BucketHoursShape | services/TimestampTrackerService.ts:23-29 | every bucket hour is in 0..23; the last is the current hour; consecutive buckets are one hour apart mod 24, oldest first |
| TimestampTracker.BucketHourDiff | services/TimestampTrackerService.ts:24 | bucket k is exactly 5 - k hours before the current hour |
| TimestampTracker.BucketHoursDistinct | services/TimestampTrackerService.ts:24 | the six bucket hours are pairwise distinct |
| TimestampTracker.WindowHasBucket | services/TimestampTrackerService.ts:37-42 | `hourDiff` is in 0..23; an hour has a bucket exactly when `hourDiff < 6`, namely bucket 5 - hourDiff, so the `statIndex !== -1` test always passes |
| TimestampTracker.CountAtSnoc | services/TimestampTrackerService.ts:41 | a further favorite adds one to the count of its own hour and nothing to other hours |
| TimestampTracker.CountAtBounded | services/TimestampTrackerService.ts:27-41 | a bucket count never exceeds the number of favorites |
| TimestampTracker.BucketHitsSum | services/TimestampTrackerService.ts:37-42 | a favorite's hour matches one bucket when it is inside the window and none otherwise |
| TimestampTracker.HistogramSum | services/TimestampTrackerService.ts:32-44 | the bucket counts add up to the number of favorites with `hourDiff < 6` |
| TimestampTracker.CountsDependOnHourOfDayOnly | services/TimestampTrackerService.ts:33-41 | the histogram depends on the favorites' hours of day only, so entries from earlier days at the same hour count alike |
| TimestampTracker.SingleFavoriteScenario | services/TimestampTrackerService.ts:22-44 | one favorite at hour 14 queried at hour 14 gives buckets 9..14 with counts 0,0,0,0,0,1 |
| TimestampTracker.Clock12 | services/TimestampTrackerService.ts:55-58 | the 12-hour clock number is in 1..12 and congruent to the hour mod 12 |
| TimestampTracker.FormatHour | services/TimestampTrackerService.ts:54-59 | for hours 0..23 the label is the 12-hour clock number followed by " AM" for hours below 12 and " PM" otherwise |
| TimestampTracker.ParseHour | services/TimestampTrackerService.ts:54-59 | reading a label back yields an hour in 0..23 |
| TimestampTracker.FormatHourRoundTrip | services/TimestampTrackerService.ts:54-59 | every label of an hour 0..23 reads back as that hour |
| TimestampTracker.FormatHourInjective | services/TimestampTrackerService.ts:54-59 | distinct hours of the day get distinct labels |
| TimestampTracker.FormatHourBoundaries | services/TimestampTrackerService.ts:55-58 | 0 → "12 AM", 1 → "1 AM", 11 → "11 AM", 12 → "12 PM", 13 → "1 PM", 23 → "11 PM" |
| ThemeContext.ParseScheme | contexts/ThemeContext.tsx:47-51 | a saved string is accepted exactly when it is "light", "dark" or "system", and is then read as the preference of that name |
| ThemeContext.ParseName | contexts/ThemeContext.tsx:76 | the name a toggle stores reads back as the same preference |
| ThemeContext.IndexOf | contexts/ThemeContext.tsx:70-71 | `indexOf` in `[system, light, dark]` gives the unique position of the preference |
| ThemeContext.NextCycle | contexts/ThemeContext.tsx:70-72 | the next preference is system → light → dark → system; it always differs from the current one; three toggles come back to the start |
| ThemeContext.NormaliseScheme | contexts/ThemeContext.tsx:37-38 | the platform scheme normalises to dark exactly when it reports "dark", and to light otherwise |
| ThemeContext.Resolve | contexts/ThemeContext.tsx:82-85 | the scheme in use is the platform's under "system" and the preference otherwise; it is always light or dark |
| ThemeContext.ThemeIcon | contexts/ThemeContext.tsx:88-98 | the icon of a preference, listed in toggle order: system → "phone-portrait", light → "sunny", dark → "moon" |
| ThemeContext.ThemeLabel | contexts/ThemeContext.tsx:100-110 | the label of a preference, listed in toggle order: system → "System", light → "Light", dark → "Dark"; it is the stored name with a capital first letter |
| ThemeContext.ThemeProvider.CurrentColorScheme | contexts/ThemeContext.tsx:82-85 | the scheme in use is always light or dark: the platform's scheme under "system", the preference otherwise |
| ThemeContext.IconAndLabelTable | contexts/ThemeContext.tsx:88-110 | light → "sunny" / "Light", dark → "moon" / "Dark", system → "phone-portrait" / "System" |
| ThemeContext.IconAndLabelMappings | contexts/ThemeContext.tsx:88-110 | distinct preferences have distinct icons and labels; each label is the stored name with a capital first letter |
| ThemeContext.ThemeProvider.constructor | contexts/ThemeContext.tsx:34-40 | the preference starts as "system"; the platform scheme starts normalised |
| ThemeContext.ThemeProvider.LoadTheme | contexts/ThemeContext.tsx:44-56 | a saved valid name becomes the preference; anything else, or nothing, leaves it unchanged |
| ThemeContext.ThemeProvider.SystemSchemeChanged | contexts/ThemeContext.tsx:62-64 | a platform change sets the normalised scheme |
| ThemeContext.ThemeProvider.ToggleTheme | contexts/ThemeContext.tsx:69-80 | the preference moves to the next one in the cycle; on a successful write exactly its name is stored, and a refused write leaves the store as it was |
| ThemeContext.ToggleThenRelaunch | contexts/ThemeContext.tsx:44-76 | the preference a successful toggle stores is the one the next launch loads |

## Left out

- **getHourlyStats error path.** The `catch` returning `[]` is not modelled. It
  is reachable only through a blob that parses to something other than a list
  of records (a stored `null` makes `favorites.forEach` at
  services/TimestampTrackerService.ts:32 throw, and a stored `[null]` makes
  `fav.timestamp` at :33 throw), which the model does not represent (see
  Malformed entries).
- **Malformed entries.** A blob that parses to something other than a list of
  records is not modelled, nor are entries lacking a timestamp. The store is
  typed.
- **isFavorite error path.** `isFavorite`'s `catch` returns false. It is
  reachable only through a blob that parses to something other than a list of
  records, which the model does not represent (see Malformed entries).
- **Local time.** `Date` and local-time conversion are the parameter
  `localHour`. Time zones and daylight saving are not modelled.
- **Number formatting.** `formatHour` is modelled for integers only.
  Fractional and non-finite numbers are not. `IntToString` prints every digit,
  which matches a template literal only below 10^21 in magnitude; larger
  integers print in exponent form there. Hours 0..23 are not affected.
- **Concurrency.** Operations are atomic and sequential. The asynchronous
  read-modify-write race between overlapping toggles is not modelled.
- **JSON.** `JSON.parse` and `JSON.stringify` are not modelled. The store
  holds the decoded list.
- **Singletons.** The `getInstance` boilerplate is not modelled.
- **React.** State scheduling, effects, subscription clean-up and the `colors`
  table lookup are not modelled. Theme state changes are applied immediately.
- **Logging.** The `console.error` logging is not modelled.
- **Other code.** Network fetching, the UI components and the React hooks are
  not part of this model.
