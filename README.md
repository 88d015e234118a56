# Notes front end — a verified model

A model, in Dafny, of the logic under a small notes application. The
application has a form that creates and edits notes, a list that shows the
notes collection live, and a thin data-access layer over a hosted
document database. The model covers these parts:

- the data-access layer (`NoteService`, `note_service.dfy`):
  - `saveNote` and `deleteNote`, each described by the write it issues and by the error it rethrows;
  - `transformSnapshot`, the loop that folds the documents of a query snapshot into the notes object keyed by document id;
  - the routing of subscription events to the `onNotesChange` and `onError` callbacks in `subscribeToNotes`.
- the item view (`NoteItem`, `note_item.dfy`):
  - the relative "last updated" text of `getTimeAgo`. It is a cascade of whole-unit divisions, and a parser is proved to read back every text the formatter shows (a left inverse: it also accepts texts the formatter never makes, such as "01 year ago");
  - the delete flow, with the `isDeleting` and `error` state;
  - the edit callback and the rendered buttons.
- the list view (`NoteList`, `note_list.dfy`):
  - the subscription state `notesList`, `isLoading` and `error`, and its callbacks;
  - the choice between the loading text, the "No notes yet" text and the list. The list is sorted by `lastUpdated`, most recent first.
- the editor (`NoteEditor`, `note_editor.dfy`):
  - the note being edited, `currentlySaving` and `error`;
  - the starting note and the effect that resets it;
  - the two field change handlers, `handleSubmit` and the button label.

Two helper modules sit under these. `NoteTypes` (`types.dfy`) holds the
`Note` record, the values a `throw` can carry, and the text that
`${error}` makes of them. `Decimal` (`decimal.dfy`) writes whole numbers as
decimal text and reads them back.

Components whose handlers change state step by step are classes:
`NoteItem.ItemState`, `NoteList.ListState` and `NoteEditor.EditorState`.
Each React state variable is a field. Each handler is a method that changes
those fields and states the whole new state. Pure pieces are functions: the
change handlers' record builders, the label, the cascade of `getTimeAgo`,
view selection and sorting. What the outside world supplies is a parameter
of the handler that uses it:
- the answer to `window.confirm`;
- the way an awaited database call settled (`Outcome`: `Done` or `Threw`);
- the id `uuidv4()` would give;
- the time `Date.now()` would give.

A database call is described by the `StoreRequest` it issues, for example
`SetDoc("notes", note.id, note)`. The model has no database.

Points where the model follows the code rather than the comments beside it:
- A successful delete returns early and leaves `isDeleting` true. The model keeps that.
- The submit button is never disabled, although the checklist comment at `src/components/NoteEditor.tsx:85` asks for it. `EditorState.View` states `!buttonDisabled`.
- A notes event does not clear an earlier error in the list. `ListState.OnNotesChange` keeps `error`.
- When `onSave` throws `null` or `undefined`, reading `.message` in the `catch` of `handleSubmit` (`src/components/NoteEditor.tsx:78`) throws a TypeError. So `handleSubmit` rejects without recording an error, and `setCurrentlySaving(false)` never runs: the form stays on "Saving..." with its fields disabled. `EditorState.HandleSubmit` states this (`CatchThrows`).
- An error text that is the empty string is falsy in the views. So an error banner appears exactly when the error is a non-empty string (`Truthy`). In the delete and submit flows every recorded failure starts with a fixed non-empty prefix, so `ItemState.HandleDelete` and `EditorState.HandleSubmit` ensure that the failure is shown. The one exception is an `onSave` that throws `null` or `undefined`: a failure there records nothing (see the point above). The list stores the bare `message` of an `Error` (`ListState.OnError`), so an `Error` with an empty message shows no error line.

`src/types/Note.ts` is not part of this model. The `Note` record and the
`Notes` map come from how the four files use them.

## Model

| member | source | states |
|---|---|---|
| `NoteService.TransformSnapshot` | src/services/noteService.ts:51-60 | the loop's result is the fold of the snapshot; its keys are exactly the document ids, and each id holds the data of the last document with that id |
| `NoteService.SnapshotKeys` | src/services/noteService.ts:52-59 | the key set of the folded map equals the set of document ids of the snapshot |
| `NoteService.SnapshotLastWins` | src/services/noteService.ts:54-57 | when ids repeat, the stored value is the data of the last document with that id in snapshot order |
| `NoteService.SnapshotEmptyIff` | src/services/noteService.ts:52-59 | the result is the empty map exactly when the snapshot has no documents |
| `NoteService.SnapshotAppend` | src/services/noteService.ts:54-57 | folding a snapshot in two parts is the right-biased union of the two parts' maps |
| `NoteService.KeyIsDocumentId` | src/services/noteService.ts:55-56 | in any snapshot, a string that is no document's id is never a key, whatever `id` the documents' data carry |
| `NoteService.SaveNote` | src/services/noteService.ts:18-28 | writes the note under its own id in collection "notes"; settles as the write did; a failure is rethrown as an `Error` wrapping the original |
| `NoteService.DeleteNote` | src/services/noteService.ts:35-44 | removes the document with the given id from "notes"; settles as the removal did; a failure is rethrown as an `Error` wrapping the original |
| `NoteTypes.Describe` | src/services/noteService.ts:24-27 | the `${error}` text of an `Error`: it starts with a non-empty name, ends with the message, puts ": " between the two when both are non-empty, and is empty only when both are; `null` and `undefined` give their names; any other value gives its own text |
| `NoteService.Wrapped` | src/services/noteService.ts:24-27 | a wrapped failure is an `Error` named "Error" whose message starts with the prefix, and the rest of the message is exactly the original failure's `${error}` text |
| `NoteService.SaveFailureMessage` | src/services/noteService.ts:24-27 | a failed save rejects with an `Error` whose message begins "Error in saveNote: " followed by the cause's text |
| `NoteService.DeleteFailureMessage` | src/services/noteService.ts:40-43 | a failed delete rejects with an `Error` whose message begins "Error in deleteNote: " followed by the cause's text |
| `NoteService.Dispatch` | src/services/noteService.ts:77-89 | a snapshot event calls `onNotesChange` with exactly the transformed snapshot; an error event calls `onError` with the error if and only if it was supplied |
| `NoteService.DispatchAll` | src/services/noteService.ts:77-89 | over a stream of events there is at most one call per event; with `onError` there is exactly one; without it, only notes callbacks are made |
| `NoteService.FailuresDroppedWithoutOnError` | src/services/noteService.ts:83-88 | without `onError`, a stream of events makes the same calls as its snapshot events alone |
| `NoteService.DispatchAllInOrder` | src/services/noteService.ts:77-89 | with `onError`, the i-th call is the one for the i-th event |
| `Decimal.NatToString` | src/components/NoteItem.tsx:60-83 | the count in the text is a non-empty string of digits, with a leading zero only for zero |
| `Decimal.DecimalRoundTrip` | src/components/NoteItem.tsx:60-83 | reading the decimal text of a count gives the count back |
| `Decimal.NatToStringInjective` | src/components/NoteItem.tsx:60-83 | different counts give different numerals |
| `NoteItem.ElapsedSeconds` | src/components/NoteItem.tsx:58 | the elapsed seconds are the floor of the millisecond difference divided by 1000, negative for future timestamps |
| `NoteItem.Classify` | src/components/NoteItem.tsx:60-85 | the reading is the largest of year/month/day/hour/minute (31536000/2592000/86400/3600/60 s) whose floored count is at least 1, with that count; "just now" exactly when seconds < 60, negatives included; months ≤ 12, days ≤ 29, hours ≤ 23, minutes ≤ 59 |
| `NoteItem.FitsUnique` | src/components/NoteItem.tsx:60-85 | no other reading fits that description, so the cascade gives the only one |
| `NoteItem.Render` | src/components/NoteItem.tsx:60-85 | "just now" for the just-now reading and for no other; otherwise the count's numeral, a space and the unit word, ending in " ago" |
| `NoteItem.TimeAgo` | src/components/NoteItem.tsx:57-86 | the text is "just now" exactly when less than 60000 ms have passed, which includes every future timestamp; any text reads back as the reading `Classify` gives for the elapsed seconds |
| `NoteItem.PluralExactlyWhenNotOne` | src/components/NoteItem.tsx:60-83 | the unit word takes an "s" exactly when the count is not 1 |
| `NoteItem.RenderRoundTrip` | src/components/NoteItem.tsx:60-85 | parsing a shown text recovers the count, the unit and the "just now" case |
| `NoteItem.RenderInjective` | src/components/NoteItem.tsx:60-85 | different readings are never shown as the same text |
| `NoteItem.ItemState.constructor` | src/components/NoteItem.tsx:15-16 | an item starts not deleting and with no error |
| `NoteItem.ItemState.HandleDelete` | src/components/NoteItem.tsx:20-34 | cancelled: no delete is issued, `isDeleting` ends false, `error` is unchanged; confirmed: deletes `note.id`; a success leaves `isDeleting` true (early return) with `error` unchanged and the buttons disabled; a failure sets `error` to "Error in deleteNote: " plus the cause, clears `isDeleting` and shows the failure message |
| `NoteItem.ItemState.HandleEdit` | src/components/NoteItem.tsx:36-40 | `onEdit` is called, with the same note, exactly when it was supplied |
| `NoteItem.ItemState.View` | src/components/NoteItem.tsx:93-115 | the Edit button exists only when `onEdit` was supplied; both buttons are disabled exactly while deleting; the failure line shows exactly while `error` is a non-empty string |
| `NoteList.SortByRecency` | src/components/NoteList.tsx:68-70 | the sorted list is ordered by non-increasing `lastUpdated` and is a permutation of its input |
| `NoteList.SortKeepsNotes` | src/components/NoteList.tsx:68-72 | sorting keeps the length and exactly the same notes |
| `NoteList.MostRecentFirst` | src/components/NoteList.tsx:69-70 | the first note shown is at least as recent as every note given |
| `NoteList.ValuesOfSpec` | src/components/NoteList.tsx:63-68 | `Object.values` gives one value per key, each key's value among them, and nothing else; each note occurs exactly as often as there are keys holding it |
| `NoteList.SelectBody` | src/components/NoteList.tsx:61-75 | the loading text exactly while loading; the "No notes yet" text exactly when not loading and the map is empty; otherwise the list |
| `NoteList.SelectBodySpec` | src/components/NoteList.tsx:61-75 | a shown list is ordered most recent first, has one entry per key, and holds each note exactly as often as there are keys holding it |
| `NoteList.ErrorText` | src/components/NoteList.tsx:33-37 | the error's message for an `Error`, the fixed fallback text for any other value |
| `NoteList.ListState.constructor` | src/components/NoteList.tsx:14-16 | starts loading, with an empty map and no error |
| `NoteList.ListState.Mount` | src/components/NoteList.tsx:23 | mounting sets loading and changes nothing else |
| `NoteList.ListState.OnNotesChange` | src/components/NoteList.tsx:27-30 | the delivered map replaces `notesList`, loading stops, and an earlier error is not cleared |
| `NoteList.ListState.OnError` | src/components/NoteList.tsx:31-39 | `error` becomes the error text, loading stops, the notes stay |
| `NoteList.ListState.Receive` | src/components/NoteList.tsx:26-40 | through the subscription, a snapshot shows its transformed notes and keeps the error; a failure keeps the notes and sets `error` to its `ErrorText`: the message of an `Error`, the fallback text for any other value; loading ends either way |
| `NoteList.ListState.View` | src/components/NoteList.tsx:57-76 | the error line shows exactly while `error` is a non-empty string, beside whatever body is selected |
| `NoteEditor.BlankNote` | src/components/NoteEditor.tsx:44-49 | a fresh note has the given fresh id, an empty title and content, and `lastUpdated` equal to the given time |
| `NoteEditor.StartingNote` | src/components/NoteEditor.tsx:19-28 | the initial note when supplied; otherwise a fresh id, an empty title and content, stamped with the supplied time |
| `NoteEditor.WithTitle` | src/components/NoteEditor.tsx:106-113 | a title edit changes only `title` and `lastUpdated`; `id` and `content` are kept |
| `NoteEditor.WithContent` | src/components/NoteEditor.tsx:126-133 | a content edit changes only `content` and `lastUpdated`; `id` and `title` are kept |
| `NoteEditor.EditsCommute` | src/components/NoteEditor.tsx:106-133 | editing title and content in either order gives the same note |
| `NoteEditor.LaterEditWins` | src/components/NoteEditor.tsx:106-133 | a second edit of a field overrides the first |
| `NoteEditor.ButtonLabel` | src/components/NoteEditor.tsx:139-141 | "Saving..." while saving, else "Update Note" with an initial note, else "Save Note" |
| `NoteEditor.ButtonLabelDistinguishes` | src/components/NoteEditor.tsx:140 | the label shows whether a save is running and, when none is, whether a note is being updated |
| `NoteEditor.EditorState.constructor` | src/components/NoteEditor.tsx:19-33 | the form starts with the starting note, not saving, and with no error |
| `NoteEditor.EditorState.SyncInitialNote` | src/components/NoteEditor.tsx:38-53 | the effect sets the note to the new initial note or a fresh blank one, ends not saving, and keeps the error |
| `NoteEditor.EditorState.ChangeTitle` | src/components/NoteEditor.tsx:106-113 | the note becomes the title edit of the previous note, and nothing else changes |
| `NoteEditor.EditorState.ChangeContent` | src/components/NoteEditor.tsx:126-133 | the note becomes the content edit of the previous note, and nothing else changes |
| `NoteEditor.MessageOf` | src/components/NoteEditor.tsx:78 | `(error as Error).message`: the message of an `Error`; nothing for `null` or `undefined`, where the property read throws; "undefined" for any other value |
| `NoteEditor.EditorState.HandleSubmit` | src/components/NoteEditor.tsx:57-82 | saves the current note; `onSave`, if supplied, is called with exactly that note when and only when the write succeeded; when both calls return, the form resets to a fresh blank note only without an initial note, and the error is kept; a failed write keeps the note and sets `error` to "Error in handleSubmit: " + "Error in saveNote: " + the cause; an `onSave` that throws keeps the note (no reset); if it threw anything but `null` or `undefined`, `error` becomes "Error in handleSubmit: " + the message of what it threw, the banner shows, and the submit ends not saving; if it threw `null` or `undefined`, the `catch` itself throws, `error` is kept and the form stays saving, with the fields disabled and the label "Saving..."; every other submit ends not saving, with the fields enabled |
| `NoteEditor.EditorState.View` | src/components/NoteEditor.tsx:88-143 | the fields are disabled exactly while saving; the button is never disabled and carries `ButtonLabel`; the failure banner shows exactly while `error` is a non-empty string |

## Left out

- The database SDK (`setDoc`, `deleteDoc`, `onSnapshot`, `collection`, `doc`) and `firebase-config`. Each call is the request it would issue plus how it settled, given as input. A subscription is a sequence of events.
- The unsubscribe function that `subscribeToNotes` returns, and the list's cleanup on unmount. Stopping the event stream is the SDK's business.
- React itself: hooks, rendering order, effect scheduling, batched state updates, `event.preventDefault()`. Each handler is one atomic transition. A setter followed by a later setter of the same field keeps only the later value, as React would after the handler.
- `async`/`await` and interleaving: two handlers running at once are not modelled.
- `formatDate` (`src/components/NoteItem.tsx:42-54`). It depends on `Intl.DateTimeFormat` and the locale, which the model does not have. The footer's title attribute is therefore not in `ItemView`.
- The `try`/`catch` around `useEffect` in the list (`src/components/NoteList.tsx:20-55`), and every `console.error` call. They add nothing observable beyond the callbacks.
- `uuidv4()`, `Date.now()` and `window.confirm`. They are parameters, so freshness of ids is not a property of the model.
- `NoteList.ValuesOf`: the order of `Object.values` is not modelled. The values are listed in an unspecified order, and only the multiset of the sorted result is fixed. The order among notes with equal `lastUpdated` is left open, because it depends on that order.
- The JavaScript number type. Times and counts are unbounded integers, so rounding of `/` on doubles beyond 2^53 is not modelled. Below that, `Math.floor(a / b)` for a positive divisor matches Dafny's `/`.
- Text of JavaScript values other than `Error` objects, `null` and `undefined`. `Thrown(text)` carries the text its string conversion would give.
- `NoteTypes.Describe`: follows `Error.prototype.toString`. An `Error` subclass that overrides `toString` is not modelled.
- `NoteEditor.MessageOf`: a thrown value that is not an `Error`, `null` or `undefined` but has its own `message` property is not modelled; every such value gives "undefined".
- `NoteEditor.EditorState.HandleSubmit`: `onSaveReturned` says whether the `onSave` call threw synchronously. A promise that `onSave` returns is not awaited by the source, so its rejection is outside the `try` and outside the model. The rejection of `handleSubmit` itself, when its `catch` throws, is not an output of the method; only the state it leaves is stated.
