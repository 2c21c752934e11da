# CS Mentor session repository

A Dafny model of the session repository of the CS Mentor chat front end: the
part of the sidebar and history panels that keeps the list of active chat
sessions, the list of soft-deleted sessions, the auto-save switch and the
browser's `localStorage` copy of them (keys `sessions`, `deletedSessions`,
`activeSessionId`, `autoSave`).

Modules, one concept each:

- `Optional`: the Option type for record fields JavaScript may leave out.
- `Text`: JavaScript's `trim` (ECMAScript white space and line terminators) and the decimal numeral of a natural number.
- `Sessions`: the session record, `some`/`find`/`filter` by id, and the pair of lists with its invariant `Disjoint` (no id both active and deleted).
- `Storage`: `localStorage` as a class over a string-keyed map of abstract values, updated in place.
- `Sidebar`: the sidebar's list edits as functions, and `SidebarState`, a class whose methods update the lists, the flag, the editing mode and the store.
- `History`: restoring a session, and the panel's one notification slot with its expiry timers; `HistoryPanel` restores against a `SidebarState`.
- `Lifecycle`: the two panels together: the delete-then-restore round trip, and invariants over any run of operations.

Clock readings (`Date.now()`, `new Date().toISOString()`) are parameters. The
auto-save effect is the separate step `SyncStore`, taken after an operation;
`selected` stands for the session the parent component has selected.

Where the code's behaviour may be unexpected, the model follows the code as written:

- Restore keeps `deletedAt`; the record is spread unchanged apart from `messages`, `restoredAt` and `active`.
- `restoredAt` is stamped twice, first by the history panel and then by the sidebar's callback; the sidebar's stamp is the one kept.
- Deleting or renaming an id that no active session carries is a silent no-op with no error result.
- Restore is given a record, not an id. A record whose id is already active is refused with an error notification. Any other record is restored and a success is posted, whether or not it was in the deleted list; the panel only offers records from that list.
- A new notification does not cancel the previous one's timer, so an older timer can clear a newer notification early (`History.SecondNotificationCutShort`).
- With auto-save on and no selected session, a stored `activeSessionId` is left as it was, not removed.
- `addNewSession` only builds the record and hands it to the parent component; inserting it and selecting it happen there.
- `activateSession` (frontend/src/components/Sidebar.jsx:312-317) is modelled but nothing in the sidebar calls it.

## Model

| member | source | states |
|---|---|---|
| `Text.Trim` | frontend/src/components/Sidebar.jsx:302-305 | the trim is a slice of the name with only white space cut from either end; it has no white space at either end; it is empty exactly when the name is all white space |
| `Text.TrimIdempotent` | frontend/src/components/Sidebar.jsx:305 | trimming an already trimmed name changes nothing |
| `Text.Decimal` | frontend/src/components/Sidebar.jsx:274-275 | the numeral of a number is non-empty, all digits, with no leading zero |
| `Text.DecimalRoundTrip` | frontend/src/components/Sidebar.jsx:275 | reading the numeral back gives the number |
| `Text.DecimalInjective` | frontend/src/components/Sidebar.jsx:274 | distinct numbers, such as distinct clock readings, give distinct numerals |
| `Sessions.HasId` | frontend/src/components/History.jsx:27-29 | true exactly when some record in the list carries the id |
| `Sessions.FindById` | frontend/src/components/Sidebar.jsx:215 | none exactly when no record carries the id; otherwise a record of the list with that id and no earlier record with it |
| `Sessions.RemoveId` | frontend/src/components/Sidebar.jsx:223 | keeps exactly the records without the id; the ids are the old ones minus that id; a missing id leaves the list as it was |
| `Sessions.RemoveIdAppend` | frontend/src/components/History.jsx:44-46 | removal distributes over concatenation, so the kept records stay in their original order |
| `Sidebar.Rename` | frontend/src/components/Sidebar.jsx:303-307 | same length and ids; exactly the records with the id take the new name; nothing but the name changes |
| `Sidebar.EditName` | frontend/src/components/Sidebar.jsx:301-308 | a name that is all white space changes nothing; otherwise the records with the id take the trimmed name |
| `Sidebar.Activate` | frontend/src/components/Sidebar.jsx:312-317 | same length, order and ids; `active` is true exactly on the records with the id and false on the rest; nothing else changes |
| `Sidebar.DeleteLists` | frontend/src/components/Sidebar.jsx:214-224 | an id with no active record changes nothing; otherwise every active record with it goes, the rest stay in order, and one copy of the first, stamped `deletedAt`, is appended to the deleted list; no id is lost; disjointness is kept |
| `Sidebar.PrepareRestored` | frontend/src/components/Sidebar.jsx:285-289 | missing messages become empty, present ones are kept, `restoredAt` is stamped, every other field is kept |
| `Sidebar.Synced` | frontend/src/components/Sidebar.jsx:181-193 | auto-save on: both lists are stored, and the selected id when there is one, any stored id is left alone otherwise; auto-save off: the three session keys are removed; other keys are untouched |
| `Sidebar.SyncedIdempotent` | frontend/src/components/Sidebar.jsx:181-193 | running the effect a second time changes nothing |
| `Sidebar.DeleteWrites` | frontend/src/components/Sidebar.jsx:226-229 | with auto-save on and the id found, both keys hold the updated lists and nothing else changes; otherwise the store is untouched |
| `Sidebar.DeleteWritesAgreeWithEffect` | frontend/src/components/Sidebar.jsx:226-229 | delete's own writes agree with what the effect writes afterwards |
| `Sidebar.ToggleWrites` | frontend/src/components/Sidebar.jsx:196-211 | the flag is always stored; turning it off removes the three session keys; nothing else changes |
| `Sidebar.InitialAutoSave` | frontend/src/components/Sidebar.jsx:165-168 | from what the store gives for `autoSave`: the stored flag, or true when none is stored |
| `Sidebar.InitialDeleted` | frontend/src/components/Sidebar.jsx:175-178 | from what the store gives for `deletedSessions`: the stored list, or empty when none is stored |
| `Sidebar.SidebarState.constructor` | frontend/src/components/Sidebar.jsx:161-178 | mounting reads the flag and the deleted list back from the store, with no session being edited |
| `Sidebar.SidebarState.SyncStore` | frontend/src/components/Sidebar.jsx:181-193 | the store becomes `Synced` of the current lists and flag |
| `Sidebar.SidebarState.ToggleAutoSave` | frontend/src/components/Sidebar.jsx:200-211 | flips the flag and returns the new value; the store follows `ToggleWrites`; the lists are unchanged |
| `Sidebar.SidebarState.DeleteSession` | frontend/src/components/Sidebar.jsx:214-233 | the lists follow `DeleteLists` and the store `DeleteWrites`; the deleted session's name is returned exactly when the id was active |
| `Sidebar.SidebarState.HandleClearHistory` | frontend/src/components/Sidebar.jsx:259-269 | both lists empty and the three session keys removed, whatever the flag |
| `Sidebar.SidebarState.AddNewSession` | frontend/src/components/Sidebar.jsx:272-281 | the id is the clock reading in decimal; the name is exactly "Session " and the decimal numeral of the active count plus one, a numeral that reads back as that count; no messages; no stamps |
| `Sidebar.SidebarState.HandleSessionRestore` | frontend/src/components/Sidebar.jsx:284-291 | the prepared record goes to the front of the active list; nothing else changes |
| `Sidebar.SidebarState.SetDeletedSessions` | frontend/src/components/Sidebar.jsx:169 | replaces the deleted list only |
| `Sidebar.SidebarState.StartEditing` | frontend/src/components/Sidebar.jsx:294-295 | the id becomes the one being edited |
| `Sidebar.SidebarState.HandleEditName` | frontend/src/components/Sidebar.jsx:301-310 | the active list follows `EditName`; a renamed record's name is non-empty with no white space at either end; editing ends in both cases |
| `Sidebar.SidebarState.ActivateSession` | frontend/src/components/Sidebar.jsx:312-317 | the active list follows `Activate`; nothing else changes |
| `History.Post` | frontend/src/components/History.jsx:19-22 | the slot holds the new notification; the timers already due have fired, every other earlier timer is still pending, and one more is added |
| `History.Expire` | frontend/src/components/History.jsx:21 | timers due have fired and gone, the others stay; the slot is empty when any fired and unchanged otherwise |
| `History.ShownForLifetime` | frontend/src/components/History.jsx:19-22 | when no older timer still pending at the post falls due first, a notification stays up for 3000 ms and is gone from then on |
| `History.StaleTimerClearsNewer` | frontend/src/components/History.jsx:21 | an older timer still pending at the post clears the newer notification at its own deadline, before that one's 3000 ms are over |
| `History.SecondNotificationCutShort` | frontend/src/components/History.jsx:19-22 | two notifications posted 2000 ms apart: the second is gone after 1000 ms |
| `History.SpacedNotificationKeepsLifetime` | frontend/src/components/History.jsx:19-22 | two notifications posted 5000 ms apart: the first timer has already fired, and the second stays up its full 3000 ms |
| `History.Restored` | frontend/src/components/History.jsx:36-41 | missing messages become empty, `restoredAt` is stamped, `active` is false; id, name, creation time and `deletedAt` are kept |
| `History.RestoreLists` | frontend/src/components/History.jsx:27-47 | an already active id changes nothing; otherwise the deleted list loses every record with the id, the restored record goes to the front of the active list, the rest stay in order; disjointness is kept |
| `History.RestoreWrites` | frontend/src/components/History.jsx:49-51 | with auto-save on and the id not active, the filtered deleted list is stored; otherwise the store is untouched |
| `History.HistoryPanel.constructor` | frontend/src/components/History.jsx:16 | no notification, no timer, the clock at the mount time |
| `History.HistoryPanel.ShowNotification` | frontend/src/components/History.jsx:19-22 | the slot follows `Post`; the kind defaults to success; the clock moves forward and no due timer is left pending |
| `History.HistoryPanel.Tick` | frontend/src/components/History.jsx:21 | the slot follows `Expire`; the clock moves forward and no due timer is left pending |
| `History.HistoryPanel.RestoreSession` | frontend/src/components/History.jsx:25-59 | the lists follow `RestoreLists` and the store `RestoreWrites`; an already active id hands nothing over and posts an error; otherwise the restored record is handed over and success is posted |
| `Lifecycle.DeleteThenRestore` | frontend/src/components/History.jsx:25-53 | a deleted session restored returns to the front with its id, name, creation time and messages, keeps `deletedAt`, takes the sidebar's `restoredAt`; the other lists are as before; disjointness holds |
| `Lifecycle.Step` | frontend/src/components/Sidebar.jsx:181-317 | every operation keeps disjointness; with auto-save off only the toggle turns it on and nothing writes session data; turning it off erases that data |
| `Lifecycle.RunKeepsDisjoint` | frontend/src/components/Sidebar.jsx:214-233 | no sequence of operations makes an id both active and deleted |
| `Lifecycle.ErasedWhileOff` | frontend/src/components/Sidebar.jsx:181-211 | once erased with auto-save off, no sequence of operations without a toggle writes session data back |

## Left out

- The parent component that owns the active list and the selected session is not part of this model. Its callbacks are return values: `onNewSession` (the new record), `onSessionDelete` (the name), `onAutoSaveToggle` (the new flag). `onClearHistory` and `onSessionChange` are not modelled. The history panel's `onSessionRestore` is not the parent's: it is bound to the sidebar's own `handleSessionRestore` (frontend/src/components/Sidebar.jsx:556), and `HistoryPanel.RestoreSession` calls `SidebarState.HandleSessionRestore`. So inserting a new session, and whether its id collides with a deleted one, is outside `Lifecycle.Step`.
- The chat-turn logic (question submission, typing placeholder, confidence warnings) lives in that parent and is not modelled.
- `History.HistoryPanel.RestoreSession`: the `catch` branch ("Failed to restore session.") is not modelled; nothing in the model can throw.
- JSON encoding is abstract. A stored `autoSave` that is not a boolean, or a stored `deletedSessions` that is not a list, is read as the default.
- React scheduling is not modelled. The auto-save effect is an explicit step, and the writes the effects make at mount are left out.
- `window.confirm`: clearing is modelled as the confirmed branch.
- `handleSaveSessions` and its `alert`s, the outside-click listener, and the focus timer in `startEditing` are not modelled. They are I/O or UI only.
- Time is a clock reading passed to each panel operation, and the panel requires it never to go back. Timers due by a reading have fired by the time the panel acts on it: at `Tick`, and before a post. Which of two events at the same millisecond runs first is not modelled.
- All markup and styling is left out.
