# command-center: the shared services and app logic, modelled in Dafny

This project models the logic of a collection of small desktop apps. The apps are a wardrobe/outfit
manager, a friends list, a calendar and a weather viewer. They share three client services:
- a cross-window event bus that keeps the latest value of each event type;
- app-scoped key-value storage;
- theme synchronisation.

The model covers:
- the event bus (`Events`): the `event:<type>` latest-value store, the Tauri and web emitters, the one
  emitter a provider picks, and the `useEventListener` hook with its replay-once rule;
- app-scoped storage (`Storage`): the web store over `localStorage` with `appName:` keys, and the Tauri
  store that is loaded lazily, once;
- theme state (`Theme`): the initial theme, `resolveTheme`, `setTheme`, the `theme-changed` handler and
  the system-preference handler;
- the wardrobe (`WardrobeApp`, `ClothingForm`, `ClothingCard`, `FitForm`, `FitCanvas`, `FitCard`):
  add/edit/delete/mark-worn, the filter and the three sorts, the weather and clothing toggles, the
  image-name derivation, form validation (including the browser's `required` check on the name inputs), the snapshot byte copy, fit-canvas position reconciliation, the
  drag, transform and resize rules, and the derived labels;
- the friends app (`FriendsApp`, `FriendForm`, `FriendCard`): add/edit/delete, the tag list, the search
  filter, tag parsing, the meeting list, the past/future partition, and the day counts;
- the heatmap (`Heatmap`): per-day counting, the maximum, one cell per day, intensity, and grouping into
  Sunday-to-Saturday columns;
- the backend weather commands (`Weather`): the cache first, the five-day date window, choosing the
  forecast entry closest to the target, the defaults, and storing the result in the cache.

Helper modules:
- `Wrappers`: `Option`, `Result`, and the outcome of reading a JSON entry back.
- `Text`: the JavaScript string operations the apps use (decimal rendering, `includes`, `toLowerCase`
  on ASCII letters, `trim`, `split`/`join`, and the default string sort order).
- `Collections`: `filter`, `map`, the include-or-remove toggle, `Set` deduplication and a stable sort.
- `Calendar`: the proleptic Gregorian calendar, as day numbers and millisecond timestamps.

Stateful code is written as classes. The event hub, the emitters, the listener hook, the local and Tauri
stores, the theme provider, the app lists, the friend form and the weather cache are classes whose
methods state their whole new state. Pure code (filters, sorts, labels, record assembly, the
closest-entry choice) is written as functions with lemmas. Loops stay loops: the `listItems` scan, the
removal from `localStorage`, the canvas `forEach`, the snapshot byte copy, and the heatmap counting, cell
and week loops.

Host services become parameters:
- the clock is `now` (milliseconds in TypeScript, seconds in Rust);
- JavaScript `Date` parsing is `timeOf`;
- `toISOString` is `isoDateOf`;
- `toLocaleDateString` is `dateLabel`;
- reading a birthday's month and day is `monthDayOf`;
- an HTTP exchange is one given `Exchange` outcome;
- a JSON entry read back is a `Stored` value (missing, malformed or decoded).

## Model

| member | source | states |
|---|---|---|
| Events.StorageKey | shared/contexts/EventContext.tsx:25 | the key is `event:` followed by exactly the event type |
| Events.StorageKeyInjective | shared/contexts/EventContext.tsx:25 | two event types share a storage key if and only if they are equal |
| Events.Listening | shared/contexts/EventContext.tsx:35-45 | the listeners `emit` reaches for a type are exactly the registrations for that type that are still active, in registration order |
| Events.ReplayFor | shared/contexts/EventContext.tsx:102-113 | no stored entry (or an empty string) means no replay; a parsable entry replays exactly its payload; unparsable text is a caught parse failure, never a replay |
| Events.ReplayAfterTwoEmits | shared/contexts/EventContext.tsx:29-32 | after two publications of a type, a fresh subscriber replays only the second payload |
| Events.ReplayUnaffectedByOtherTypes | shared/contexts/EventContext.tsx:29-32 | publishing one event type leaves the replay of every other type as it was |
| Events.EventHub.Persist | shared/contexts/EventContext.tsx:32 | the key now holds the payload, other keys and listeners are unchanged, and the write is logged |
| Events.EventHub.Broadcast | shared/contexts/EventContext.tsx:35 | one delivery to every live listener of the type, in registration order; the store is unchanged |
| Events.EventHub.Register | shared/contexts/EventContext.tsx:42-44 | a new live registration for the type, with a fresh id |
| Events.EventHub.Unregister | shared/contexts/EventContext.tsx:45 | the registration is no longer live; nothing else changes |
| Events.Emitter.constructor | shared/contexts/EventContext.tsx:71-74 | the provider picks the Tauri or the web emitter once; the choice is a constant of the emitter |
| Events.Emitter.Emit | shared/contexts/EventContext.tsx:28-57 | the store holds the payload under `event:<type>` (overwriting), the durable write is logged before any delivery, and only the Tauri emitter broadcasts |
| Events.Emitter.Listen | shared/contexts/EventContext.tsx:37-64 | the Tauri emitter registers a live listener; the web emitter changes nothing and returns a no-op unsubscribe |
| Events.Emitter.Unlisten | shared/contexts/EventContext.tsx:45-63 | calling the returned unsubscribe makes that registration inactive; the no-op one changes nothing |
| Events.ListenerHook.constructor | shared/contexts/EventContext.tsx:90-95 | a new hook is uninitialised, has replayed nothing and has no effect run |
| Events.ListenerHook.Render | shared/contexts/EventContext.tsx:95-97 | a render captures the current `hasInitialized` in the effect closure and changes nothing else |
| Events.ListenerHook.Setup | shared/contexts/EventContext.tsx:100-121 | replay happens only when the captured flag is false, i.e. when the render that created the effect had not yet seen `hasInitialized` set; the hook is initialised afterwards even on a parse failure; then one `listen` call is made |
| Events.ListenerHook.ListenResolved | shared/contexts/EventContext.tsx:117-118 | the run's `unlisten` becomes set; replay state is unchanged |
| Events.ListenerHook.Cleanup | shared/contexts/EventContext.tsx:123-127 | a resolved run's registration becomes inactive, so it gets no more live events; an unresolved run unsubscribes nothing |
| Events.ListenerHook.ListenResolvedCancelling | shared/contexts/EventContext.tsx:117-127 | corrected resolution: a run already cleaned up unsubscribes as soon as `listen` resolves |
| Events.FreshWindowScenario | shared/contexts/EventContext.tsx:97-128 | a window opened after two publications replays only the latest payload; once its listener is registered, a later live event reaches it |
| Events.RemountAfterRenderScenario | shared/contexts/EventContext.tsx:95-128 | after a re-render that saw the flag set, a new run of the effect replays nothing more |
| Events.StrictModeDoubleReplay | shared/contexts/EventContext.tsx:95-128 | setup, cleanup and setup of the same effect closure, as React's development mode runs them, replay the stored payload twice |
| Events.CleanupBeforeResolveLeaks | shared/contexts/EventContext.tsx:117-127 | as written, a cleanup that runs before `listen` resolves leaves the listener live, and a later publication reaches the unmounted hook |
| Events.CleanupBeforeResolveCancelled | shared/contexts/EventContext.tsx:117-127 | with the corrected resolution, the same interleaving leaves no listener, and a later publication is only persisted |
| Storage.RawKey | shared/contexts/StorageContext.tsx:64 | the raw key is the app name, `:`, then the key |
| Storage.RawKeyInjective | shared/contexts/StorageContext.tsx:64-70 | within one app, distinct keys have distinct raw keys |
| Storage.NamespacesDisjoint | shared/contexts/StorageContext.tsx:62-71 | apps whose names contain no `:` never share a raw key |
| Storage.WebStorage.GetItem | shared/contexts/StorageContext.tsx:63-65 | null when the raw key is absent, otherwise its value |
| Storage.WebStorage.SetItem | shared/contexts/StorageContext.tsx:66-68 | only the raw key `appName:k` changes, and a later get returns the value |
| Storage.WebStorage.RemoveItem | shared/contexts/StorageContext.tsx:69-71 | only the raw key `appName:k` is removed, and a later get returns null |
| Storage.WebStorage.ListItems | shared/contexts/StorageContext.tsx:72-89 | the result holds exactly the keys stored under the `appName:` prefix, with the prefix stripped, and `result[k]` equals `getItem(k)` |
| Storage.TauriStorage.GetStore | shared/contexts/StorageContext.tsx:21-28 | the store file is loaded on the first call only and reused afterwards |
| Storage.TauriStorage.GetItem | shared/contexts/StorageContext.tsx:31-35 | the stored value, or null when the key is absent |
| Storage.TauriStorage.SetItem | shared/contexts/StorageContext.tsx:36-40 | the loaded store gets the entry and is saved back to the file |
| Storage.TauriStorage.RemoveItem | shared/contexts/StorageContext.tsx:41-45 | the loaded store loses the entry and is saved back to the file |
| Storage.TauriStorage.ListItems | shared/contexts/StorageContext.tsx:46-57 | every entry of the loaded store, with keys as they are |
| Storage.TauriStorageLaws | shared/contexts/StorageContext.tsx:20-45 | on the host store: set-then-get returns the value, remove-then-get returns null, and the file is loaded once |
| Theme.InitialTheme | shared/contexts/ThemeContext.tsx:22-26 | the stored text when it is non-empty, otherwise `auto` |
| Theme.ResolveTheme | shared/contexts/ThemeContext.tsx:31-37 | the theme itself unless it is `auto`; `auto` gives `dark` exactly when the system prefers dark |
| Theme.ResolvedIsConcrete | shared/contexts/ThemeContext.tsx:31-37 | each of the three themes resolves to `light` or `dark` |
| Theme.ThemeProvider.constructor | shared/contexts/ThemeContext.tsx:20-42 | a mounted provider starts from the stored theme, resolved against the system preference |
| Theme.ThemeProvider.Subscribe | shared/contexts/ThemeContext.tsx:60-75 | the provider registers one `theme-changed` listener, or none on the web emitter |
| Theme.ThemeProvider.SetTheme | shared/contexts/ThemeContext.tsx:77-86 | the state and the `app-theme` entry take the new theme, then a `theme-changed` event carrying it is persisted and broadcast |
| Theme.ThemeProvider.ThemeChanged | shared/contexts/ThemeContext.tsx:63-66 | the state and the `app-theme` entry follow the payload, and nothing is emitted |
| Theme.ThemeProvider.SystemChanged | shared/contexts/ThemeContext.tsx:44-57 | a system change moves the resolved theme only while the theme is `auto` |
| Theme.CrossWindowScenario | shared/contexts/ThemeContext.tsx:63-86 | a theme chosen in one window reaches another window's state and storage, and the receiver publishes nothing back |
| Theme.ReloadScenario | shared/contexts/ThemeContext.tsx:22-26 | a provider mounted after `setTheme(t)` starts with `t` |
| WardrobeApp.LastWornTime | apps/wardrobe-app/WardrobeApp.tsx:88-89 | the time of the last `wornAt` entry, or 0 for a piece never worn |
| WardrobeApp.PrecedesIsPreorder | apps/wardrobe-app/WardrobeApp.tsx:82-93 | each of the three comparators is a total preorder, so the sort is well defined |
| WardrobeApp.FilteredClothing | apps/wardrobe-app/WardrobeApp.tsx:76-93 | exactly the pieces that have the filter weather (if set) and the filter type (if set), each as often as stored, sorted by the chosen comparator; pieces the comparator ranks equal keep their stored order |
| WardrobeApp.NoFiltersShowAll | apps/wardrobe-app/WardrobeApp.tsx:77-81 | with no filter set, every piece is shown |
| WardrobeApp.WornCountNonIncreasing | apps/wardrobe-app/WardrobeApp.tsx:85-86 | sorted by worn count, `wornAt.length` never increases along the list |
| WardrobeApp.LastWornNonIncreasing | apps/wardrobe-app/WardrobeApp.tsx:87-90 | sorted by last worn, the last-entry time never increases, never-worn counting as 0 |
| WardrobeApp.NewPiece | apps/wardrobe-app/WardrobeApp.tsx:37-41 | the draft's fields, with the decimal clock reading as id |
| WardrobeApp.Wardrobe.Load | apps/wardrobe-app/WardrobeApp.tsx:17-29 | a decoded entry replaces the list; a missing or malformed entry leaves it unchanged |
| WardrobeApp.Wardrobe.Save | apps/wardrobe-app/WardrobeApp.tsx:32-35 | the list and the stored `clothing` entry hold the same content |
| WardrobeApp.Wardrobe.Add | apps/wardrobe-app/WardrobeApp.tsx:37-44 | exactly one new piece is appended; the others keep their order; the store agrees |
| WardrobeApp.Wardrobe.Edit | apps/wardrobe-app/WardrobeApp.tsx:46-50 | exactly the pieces with the edited id are replaced; length and other pieces are unchanged |
| WardrobeApp.Wardrobe.Delete | apps/wardrobe-app/WardrobeApp.tsx:52-55 | every piece with the id is removed; the rest stay in order |
| WardrobeApp.Wardrobe.MarkWorn | apps/wardrobe-app/WardrobeApp.tsx:57-64 | each matching piece's `wornAt` gains exactly the new entry at the end; nothing else changes |
| WardrobeApp.SaveThenReload | apps/wardrobe-app/WardrobeApp.tsx:17-35 | a list saved by one mount is the list the next mount loads |
| WardrobeApp.MarkWornCounts | apps/wardrobe-app/WardrobeApp.tsx:57-63 | marking worn adds exactly one to the matching piece's count and nothing to the others |
| ClothingForm.InitialForm | apps/wardrobe-app/ClothingForm.tsx:35-40 | a new form is blank, with type `top`, no weather and no image; an edit form takes the piece's fields |
| ClothingForm.ToggleWeather | apps/wardrobe-app/ClothingForm.tsx:79-83 | the weather is removed if present and appended otherwise; every other weather keeps its membership |
| ClothingForm.ToggleWeatherTwice | apps/wardrobe-app/ClothingForm.tsx:79-83 | toggling twice restores membership |
| ClothingForm.ExtensionUnique | apps/wardrobe-app/ClothingForm.tsx:66 | the pattern `\.[^/.]+$` matches at one position at most |
| ClothingForm.StripExtension | apps/wardrobe-app/ClothingForm.tsx:65-68 | the name cut at the match of `\.[^/.]+$`, or the whole name when there is no match |
| ClothingForm.StripAddedExtension | apps/wardrobe-app/ClothingForm.tsx:65-68 | a stem followed by `.` and an extension without `/` or `.` loses exactly that extension |
| ClothingForm.StripWithoutExtension | apps/wardrobe-app/ClothingForm.tsx:65-68 | a name whose dots are all last or followed by a `/` keeps every character |
| ClothingForm.ImageName | apps/wardrobe-app/ClothingForm.tsx:65-68 | `clothing-<ts>-<stem>.png`: it starts with `clothing-` and ends with `.png` |
| ClothingForm.Submit | apps/wardrobe-app/ClothingForm.tsx:85-120 | blocked by the browser, with no alert and nothing saved, exactly when the `required` name is empty; otherwise alerted with "Please upload an image" exactly when there is no image; a saved record has a non-empty name and image, keeps the edited id and `wornAt`, and a new piece has an empty `wornAt` |
| ClothingForm.EditRoundTrip | apps/wardrobe-app/ClothingForm.tsx:35-120 | submitting an unchanged edit form gives back the piece it was opened with, unless its name is empty, when the browser blocks the submit |
| ClothingCard.LastWorn | apps/wardrobe-app/ClothingCard.tsx:30-32 | null exactly when `wornAt` is empty; otherwise the last entry, not the latest time |
| ClothingCard.DaysSinceWorn | apps/wardrobe-app/ClothingCard.tsx:34-36 | null when never worn; otherwise the floor of the elapsed time in whole days |
| ClothingCard.DaysSinceWornSameDay | apps/wardrobe-app/ClothingCard.tsx:34-36 | a piece worn less than a day ago shows 0 days |
| ClothingCard.DaysSinceWornFuture | apps/wardrobe-app/ClothingCard.tsx:34-36 | a last wear dated after now gives a negative day count |
| ClothingCard.WornLabel | apps/wardrobe-app/ClothingCard.tsx:73 | the line is "Worn: n times", with n rendered in decimal |
| ClothingCard.WornLabelCount | apps/wardrobe-app/ClothingCard.tsx:73 | the number shown reads back as `wornAt.length` |
| FitForm.SelectedClothing | apps/wardrobe-app/FitForm.tsx:24 | the order-preserving subsequence of the clothing whose ids are selected |
| FitForm.ToggleClothing | apps/wardrobe-app/FitForm.tsx:26-34 | the selection's symmetric difference with `{id}` |
| FitForm.ToggleClothingTwice | apps/wardrobe-app/FitForm.tsx:26-34 | toggling twice restores the selection |
| FitForm.InitialSelection | apps/wardrobe-app/FitForm.tsx:15-17 | an edit form selects exactly the ids of the fit's positions; a new form selects none |
| FitForm.Bytes | apps/wardrobe-app/FitForm.tsx:63-66 | as many bytes as chars, and byte `i` is char code `i` modulo 256 |
| FitForm.BytesRoundTrip | apps/wardrobe-app/FitForm.tsx:62-66 | for the chars `atob` yields (below 256), the bytes read back as the same string |
| FitForm.CopyBytes | apps/wardrobe-app/FitForm.tsx:63-66 | the loop fills an array of the string's length with `bytes[i]` equal to char code `i` |
| FitForm.PreviewName | apps/wardrobe-app/FitForm.tsx:69-70 | `fit-preview-<id>.png`, reusing the edited fit's id, otherwise the clock |
| FitForm.FitRecord | apps/wardrobe-app/FitForm.tsx:78-91 | the name is trimmed; an edit keeps the old id, `wornAt` and `createdAt`; a new fit has no wear and is created now |
| FitForm.Submit | apps/wardrobe-app/FitForm.tsx:36-121 | an empty name is blocked by the browser's `required` check before `handleSubmit` runs; a name of only whitespace, an empty selection or a missing canvas is rejected with its message and nothing is saved; a failure while making or saving the preview saves nothing; otherwise the preview bytes and the record are produced |
| FitCanvas.DefaultPosition | apps/wardrobe-app/FitCanvas.tsx:76-90 | a new piece at index `i` gets x = y = 50 + 20i and rotation 0, and 150 by 150 when no image is loaded |
| FitCanvas.Additions | apps/wardrobe-app/FitCanvas.tsx:76-91 | the pushed positions are for selected pieces that had no position |
| FitCanvas.AdditionsComplete | apps/wardrobe-app/FitCanvas.tsx:76-91 | every selected piece without a position gets the default for its index |
| FitCanvas.AdditionsEmpty | apps/wardrobe-app/FitCanvas.tsx:73-91 | nothing is pushed when every selected piece has a position |
| FitCanvas.Reconcile | apps/wardrobe-app/FitCanvas.tsx:72-100 | the loop builds the existing positions plus the pushed defaults, drops deselected ones, and reports the result only when its length differs |
| FitCanvas.ReconciledIds | apps/wardrobe-app/FitCanvas.tsx:73-95 | after reconciliation the position ids are exactly the selected ids |
| FitCanvas.ReconciledKeepsExisting | apps/wardrobe-app/FitCanvas.tsx:73-95 | surviving positions are unchanged and in their old order, followed by the new defaults |
| FitCanvas.ReconcileStable | apps/wardrobe-app/FitCanvas.tsx:72-100 | with the selection already matching, reconciling changes nothing |
| FitCanvas.DragEnd | apps/wardrobe-app/FitCanvas.tsx:113-120 | only `x` and `y` of the dragged piece change; every other position and field is unchanged |
| FitCanvas.TransformEnd | apps/wardrobe-app/FitCanvas.tsx:122-144 | the target's size is the scaled size but at least 5; other positions are unchanged |
| FitCanvas.Select | apps/wardrobe-app/FitCanvas.tsx:146-148 | selecting the selected id deselects it; another id becomes selected |
| FitCanvas.SelectTwice | apps/wardrobe-app/FitCanvas.tsx:146-148 | clicking the same piece twice leaves nothing selected |
| FitCanvas.StageClick | apps/wardrobe-app/FitCanvas.tsx:150-155 | a click on the empty stage deselects; a click on a node keeps the selection |
| FitCanvas.BoundBox | apps/wardrobe-app/FitCanvas.tsx:229-234 | the old box is kept whenever the new width or height is below 5 |
| FitCanvas.BoundBoxKeepsMinimum | apps/wardrobe-app/FitCanvas.tsx:229-234 | starting from at least 5 by 5, any sequence of resizes keeps the box at least 5 by 5 |
| FitCard.Find | apps/wardrobe-app/FitCard.tsx:18 | the first piece with the id, or none when no piece has it |
| FitCard.FitClothing | apps/wardrobe-app/FitCard.tsx:17-19 | only existing pieces, in the order of the positions, at most one per position, and one for every position whose piece exists |
| FitCard.LastWornLabel | apps/wardrobe-app/FitCard.tsx:21-23 | "Never" exactly when `wornAt` is empty; otherwise the label of the last entry |
| FitCard.ItemLabel | apps/wardrobe-app/FitCard.tsx:76 | the label ends in `s` exactly when the count is not 1 |
| FriendsTypes.OrdersArePreorders | apps/friends-app/FriendForm.tsx:64 | ordering meetings by time, either way, is a total preorder |
| FriendsApp.AllTagOccurrences | apps/friends-app/FriendsApp.tsx:66 | the flattened tags hold exactly the tags some friend carries |
| FriendsApp.AllTags | apps/friends-app/FriendsApp.tsx:66 | duplicate-free, sorted, and equal as a set to the union of all friends' tags |
| FriendsApp.AllTagsStrictlyAscending | apps/friends-app/FriendsApp.tsx:66 | the tag list is strictly ascending |
| FriendsApp.FilteredFriends | apps/friends-app/FriendsApp.tsx:69-74 | a friend passes exactly when the lower-cased query occurs in the lower-cased name and every selected tag is among its tags; the result is an order-preserving subsequence |
| FriendsApp.EmptySearchShowsAll | apps/friends-app/FriendsApp.tsx:69-74 | an empty query with no selected tag shows every friend |
| FriendsApp.ToggleTag | apps/friends-app/FriendsApp.tsx:76-80 | the tag is removed if present and appended if absent; other tags keep their membership |
| FriendsApp.ToggleTagTwice | apps/friends-app/FriendsApp.tsx:76-80 | toggling twice restores membership |
| FriendsApp.NewFriend | apps/friends-app/FriendsApp.tsx:36-40 | the draft's fields, with the decimal clock reading as id |
| FriendsApp.Friends.Load | apps/friends-app/FriendsApp.tsx:16-28 | a decoded entry replaces the list; a missing or malformed entry leaves it unchanged |
| FriendsApp.Friends.Save | apps/friends-app/FriendsApp.tsx:31-34 | the list and the stored `friends` entry hold the same content |
| FriendsApp.Friends.Add | apps/friends-app/FriendsApp.tsx:36-43 | one new friend is appended; the others are unchanged and in order |
| FriendsApp.Friends.Edit | apps/friends-app/FriendsApp.tsx:45-49 | exactly the friends with the edited id are replaced; the rest stay in place |
| FriendsApp.Friends.Delete | apps/friends-app/FriendsApp.tsx:51-54 | every friend with the id is removed; the rest keep their order |
| FriendsApp.SaveThenReload | apps/friends-app/FriendsApp.tsx:16-34 | a list saved by one mount is the list the next mount loads |
| FriendForm.TrimAll | apps/friends-app/FriendForm.tsx:60 | each segment trimmed, in order |
| FriendForm.TrimmedSegment | apps/friends-app/FriendForm.tsx:58-61 | a comma-free segment trims to nothing or to a tag with no whitespace at either end |
| FriendForm.ParseTags | apps/friends-app/FriendForm.tsx:58-61 | no empty tag and no whitespace at either end of a tag; the tags keep the order of the comma-separated segments |
| FriendForm.TrimmedSegmentsOfText | apps/friends-app/FriendForm.tsx:58-61 | splitting the joined tag text at commas and trimming gives back the tags |
| FriendForm.ParseTagsText | apps/friends-app/FriendForm.tsx:14-61 | well-formed tags shown as `tags.join(', ')` parse back to the same tags, in order |
| FriendForm.RemoveAt | apps/friends-app/FriendForm.tsx:47-49 | exactly the element at the index is removed; the others keep their relative order |
| FriendForm.FriendFormState.constructor | apps/friends-app/FriendForm.tsx:13-21 | the fields start from the edited friend, or blank |
| FriendForm.FriendFormState.AddMeeting | apps/friends-app/FriendForm.tsx:40-45 | does nothing without a date; otherwise appends one meeting and clears both inputs |
| FriendForm.FriendFormState.RemoveMeeting | apps/friends-app/FriendForm.tsx:47-49 | the meeting at the index is removed; the other fields are unchanged |
| FriendForm.FriendFormState.SortMeetings | apps/friends-app/FriendForm.tsx:140-141 | `meetings.sort` on the state array: afterwards sorted by the comparator, a permutation of the old meetings, with tied meetings in their old order; no other field changes |
| FriendForm.FriendFormState.Render | apps/friends-app/FriendForm.tsx:140-141 | the render sorts the state array itself, latest first, as a permutation in which meetings at the same time keep their order; no other field changes |
| FriendForm.FriendFormState.Submit | apps/friends-app/FriendForm.tsx:51-83 | with an empty `required` name the browser blocks the submit: nothing is handed on and the meetings stay as they are; otherwise the id only when editing a friend that has one, an empty avatar or birthday becomes undefined, the tags are parsed, and the meetings are sorted earliest first, in place and stably; the new-meeting inputs and the other fields are unchanged |
| FriendCard.PastMeetings | apps/friends-app/FriendCard.tsx:40 | exactly the meetings before now, in stored order |
| FriendCard.FutureMeetings | apps/friends-app/FriendCard.tsx:41 | exactly the meetings at or after now, in stored order |
| FriendCard.PastFuturePartition | apps/friends-app/FriendCard.tsx:40-41 | past and future meetings partition the meetings |
| FriendCard.UpcomingMeeting | apps/friends-app/FriendCard.tsx:43-44 | the earliest future meeting, the first stored among those at that time, or none exactly when there is no future meeting |
| FriendCard.DaysSinceLastMeeting | apps/friends-app/FriendCard.tsx:46-53 | null exactly when there is no past meeting; otherwise the floor of the whole days since the latest past meeting |
| FriendCard.InYear | apps/friends-app/FriendCard.tsx:59 | 29 February of a common year becomes 1 March, on the same day number |
| FriendCard.DaysUntilBirthdayAsWritten | apps/friends-app/FriendCard.tsx:55-67 | the code as written: null exactly when no birthday is set; the birthday is compared with the current instant |
| FriendCard.DaysUntilBirthday | apps/friends-app/FriendCard.tsx:55-67 | null exactly when no birthday is set; otherwise 0 to 365 whole days to the next birthday, 0 exactly on the birthday, and a birthday already past moves to next year |
| FriendCard.AsWrittenOneDayShort | apps/friends-app/FriendCard.tsx:59-65 | at midnight the two agree; at any later time on a day that is not the birthday, the code as written reports one day fewer |
| FriendCard.BirthdayCounterexample | apps/friends-app/FriendCard.tsx:59-65 | on 15 March at 10:00 a 15 March birthday shows 364 days (intended 0) and a 16 March one 0 days (intended 1) |
| Heatmap.KeyBeforeT | shared/components/Heatmap.tsx:18 | the day key is the longest `T`-free prefix of the date text |
| Heatmap.DayKeys | shared/components/Heatmap.tsx:17-18 | one key per entry, in order |
| Heatmap.CountByDay | shared/components/Heatmap.tsx:17-20 | each day key maps to the number of entries carrying it, keys are in insertion order, and the counts sum to `data.length` |
| Heatmap.MaxCount | shared/components/Heatmap.tsx:23 | at least 1 even for empty data, at least every count, and equal to some count unless it is 1 |
| Heatmap.Intensity | shared/components/Heatmap.tsx:32 | 0 exactly when the count is 0; otherwise count/maxCount, in (0, 1] |
| Heatmap.DayCount | shared/components/Heatmap.tsx:29 | the number of whole days from start while not past the end |
| Heatmap.Cells | shared/components/Heatmap.tsx:26-41 | one cell per day from start to end inclusive, consecutive, each with its day's count and intensity |
| Heatmap.IntensityColour | shared/components/Heatmap.tsx:46-52 | the surface colour exactly at intensity 0; otherwise the accent with opacity 0.2 + 0.8 × intensity |
| Heatmap.WeekdayOf | shared/components/Heatmap.tsx:59 | a weekday from 0 (Sunday) to 6 (Saturday) |
| Heatmap.Placeholders | shared/components/Heatmap.tsx:63-65 | exactly `n` placeholder cells |
| Heatmap.Padding | shared/components/Heatmap.tsx:61-66 | the first column is prefixed with exactly `dayOfWeek` placeholders |
| Heatmap.GroupWeeks | shared/components/Heatmap.tsx:54-74 | the columns read in order are the padding then the cells; every column is non-empty, every column but the last ends on a Saturday, and for consecutive days no column holds more than 7 |
| Heatmap.PaddingDropped | shared/components/Heatmap.tsx:61-68 | dropping the placeholders from the grid gives back the cells |
| Heatmap.DefaultRange | shared/components/Heatmap.tsx:11-12 | the default start is one year (365 or 366 days) before the end's day |
| Heatmap.CellsBounded | shared/components/Heatmap.tsx:23-32 | every cell's intensity lies in [0, 1] |
| Heatmap.Build | shared/components/Heatmap.tsx:9-74 | the whole component: one cell per day of the range, the i-th at `start` plus i days, each counting exactly the entries whose day key is its day's, intensities in [0, 1], nonzero counts only on days that have entries, and weeks of 1 to 7 entries that give back the cells once placeholders are dropped |
| Weather.Summary | src-tauri/src/weather.rs:73-78 | the first listed condition, or "Unknown" and "01d" when none is listed |
| Weather.FromCurrent | src-tauri/src/weather.rs:69-81 | the current record takes the response's readings, its first condition or the defaults, the city name and the current time |
| Weather.FromForecast | src-tauri/src/weather.rs:172-184 | the forecast record takes the chosen entry's readings and `dt_txt`, and the city name |
| Weather.Closest | src-tauri/src/weather.rs:166-170 | none exactly for an empty list; otherwise the first index minimising the distance to the target |
| Weather.FirstClosestUnique | src-tauri/src/weather.rs:166-170 | only one index is the first closest, so the choice is determined |
| Weather.StartOfToday | src-tauri/src/weather.rs:130-133 | midnight UTC of the current day: at most now, within a day of it, and a multiple of a day |
| Weather.WindowShape | src-tauri/src/weather.rs:129-139 | every instant from now to five days on is accepted; nothing before today's midnight or after five days is |
| Weather.CurrentOutcome | src-tauri/src/weather.rs:50-86 | each transport or decoding failure gives its own error message; a response gives its record |
| Weather.ForecastOutcome | src-tauri/src/weather.rs:146-184 | each failure gives its own message; an empty list gives "No forecast data available"; otherwise the record of the first closest entry |
| Weather.WeatherService.FetchWeather | src-tauri/src/weather.rs:36-87 | a cache hit is returned with no request; otherwise one request, and only a success is cached under the same coordinates |
| Weather.WeatherService.FetchForecast | src-tauri/src/weather.rs:108-190 | a cache hit is returned with no request; a bad date or a date outside [start of today, now + 432000 s] is rejected before any request; only a success is cached under the same key |
| Weather.WeatherService.Evict | src-tauri/src/weather_cache.rs:16-25 | the cache may drop an entry (time-to-live or capacity); nothing else changes |
| Weather.RepeatedForecast | src-tauri/src/weather.rs:116-119 | after a successful answer, asking again gives the same answer with no further request |
| Text.DecimalStringInjective | apps/wardrobe-app/WardrobeApp.tsx:40 | distinct clock readings give distinct `toString()` ids |
| Text.IncludesAt | apps/friends-app/FriendsApp.tsx:70 | `includes` holds exactly when the substring occurs at some index |
| Text.TrimSpec | apps/wardrobe-app/FitForm.tsx:39 | `trim` removes whitespace only, from both ends, and leaves no whitespace at either end |
| Text.JoinSplit | apps/friends-app/FriendForm.tsx:58-59 | joining the split segments with the separator gives back the text |
| Collections.SortByStable | apps/wardrobe-app/WardrobeApp.tsx:82-93 | the sort is stable: the elements any comparator ranks equal come out in the order they went in |
| Collections.Toggle | apps/friends-app/FriendsApp.tsx:77-79 | the element is removed when present (the list shrinks) and appended when absent; other elements keep their membership |

## Findings

| source | as written | input that shows it | evidently intended | confidence | as-written member | corrected member |
|---|---|---|---|---|---|---|
| shared/contexts/EventContext.tsx:117-127 | the cleanup unsubscribes only if `listen` has already resolved; a resolution that comes after the cleanup is never undone | mount, then unmount before `listen` resolves (React runs effects twice in development); a later publication reaches the unmounted hook's handler | a run that was cleaned up unsubscribes as soon as its `listen` resolves | likely; not executed | Events.CleanupBeforeResolveLeaks | Events.ListenerHook.ListenResolvedCancelling |
| apps/friends-app/FriendCard.tsx:59-65 | the birthday at midnight is compared with the current instant, and the millisecond difference is rounded down | on 15 March 2025 at 10:00, a 15 March birthday shows 364 days and a 16 March birthday shows 0 | whole calendar days to the next birthday: 0 on the day, 1 the day before | high; not executed | FriendCard.BirthdayCounterexample | FriendCard.DaysUntilBirthday |

## Left out

- Events.EventHub.Broadcast: delivery is one sequential step. Cross-window concurrency, asynchronous delivery and ordering across event types are not modelled.
- Events.ListenerHook.Setup: the replay calls the handler synchronously inside the effect. React's scheduling of `setHasInitialized`, of re-renders and of effect re-runs is reduced to the order in which `Render`, `Setup` and `Cleanup` are called; a run replays again whenever no render has captured the flag since it was set, as in the development double run.
- Storage.TauriStorage.GetStore: each call is one atomic step. In the source the check of `store` and the assignment are separated by `await Store.load`, so calls that overlap before the first load resolves each load the file; the model does not capture this interleaving.
- FriendForm.FriendFormState.Render: the form's `meetings` state starts as the edited friend's own array (apps/friends-app/FriendForm.tsx:18), so the in-place sorts of the render (lines 140-141) and of the submit (line 64) also reorder that friend's `meetings` inside the friends list, even when the edit is cancelled. The model copies the sequence into the form and does not capture this aliasing.
- JSON: `JSON.stringify`/`JSON.parse` of payloads and lists are not modelled. A stored event entry is either a payload the bus wrote or text that does not parse. A stored app list is a `Stored` value.
- Storage.WebStorage.ListItems: the enumeration order of `localStorage.key(i)` is a parameter (the `keys` sequence). The browser's own order is not modelled.
- Storage: the store file format and the `Store` plugin are not modelled. The Tauri store is a map that is loaded once and saved back.
- Storage.WebStorage: the bus entries (`event:<type>`), the theme entry (`app-theme`) and the app entries (`<appName>:<key>`) share one `localStorage` per origin in the source, while the model keeps the event store apart from `LocalStorage`. The app names in use (`...-app`, `tauri-container`) cannot collide with these, but an app named `event` would see the bus entries through its `WebStorage`.
- Theme: the `data-theme` attribute on the document is not modelled. `matchMedia` is a boolean parameter. The stored theme is not validated (the source does not validate it either).
- Theme.ThemeProvider.SetTheme: `Date.now()` for the payload's timestamp is the parameter `now`.
- WardrobeApp.FilteredClothing: sorting by name uses `localeCompare` in the source. The model uses code-point lexicographic order, because collation is locale data.
- FriendsApp.AllTags: `Array.prototype.sort()` compares UTF-16 code units. The model compares Unicode scalar values. The two differ only for characters outside the Basic Multilingual Plane.
- Text.Lower: `toLowerCase` is modelled for ASCII letters only.
- Heatmap.Intensity: JavaScript numbers are modelled as reals, so the double rounding of `count / maxCount` and of the opacity `0.2 + intensity * 0.8` in Heatmap.IntensityColour is not modelled.
- Dates: JavaScript `Date` parsing, formatting and local time zones are not modelled. Parsing is a parameter `timeOf`. Local time is taken to be UTC, so one day is always 86 400 000 ms, including in `setDate(getDate() + 1)`. Invalid dates are not modelled: `timeOf` is total, whereas `new Date(text)` of an unparseable text is NaN, and a meeting with such a date fails both `< now` and `>= now` and so appears in neither list. FriendCard.PastFuturePartition relies on `timeOf` being total.
- FriendCard.DaysSinceLastMeeting: the source reads the clock twice (`new Date()` and `Date.now()`). The model uses one reading, `now`.
- FitCanvas: Konva stage and transformer mechanics are not modelled. Neither are `toDataURL` snapshots, image loading (the `images` map is a parameter), the `imageNodesRef` map of nodes, or floating-point rounding (sizes and positions are reals).
- FitForm.Submit: `atob` and the canvas snapshot are one parameter, the decoded string or a failure. `save_image` is a success flag.
- ClothingForm: the image upload is not modelled: the background-removal call and saving the image.
- FriendForm: the avatar upload is not modelled, because it is only a call to the image service.
- Weather: HTTP, the API key, URL formatting and serde decoding are one `Exchange` outcome. RFC 3339 parsing of the date (section 5.6 of RFC 3339) is a given timestamp or error message. `f64` temperatures are reals. Each command is one atomic step: in the source Tauri runs commands concurrently, so two overlapping first calls for the same key both miss the cache and both send a request.
- Weather.WeatherService.FetchWeather: the cache keys the source formats with four decimals (`{:.4}`) are modelled as the exact coordinates. Two coordinates that agree to four decimals share an entry in the source but not in the model. Time-to-live and capacity eviction are only the nondeterministic `Evict`.
- Not modelled, because they are UI or I/O: the image service and background removal, geolocation, the environment and command registration, the calendar, weather, example and container apps, provider wiring, and all rendering.
