# ste: an offline-first notes app and its auth backend, modelled in Dafny

This project models the core of *ste*, a React single-page app. The core covers:

- **Notes.** Notes live in an on-device Dexie table and are edited, tagged and
  pinned in the browser. They are pushed to a DynamoDB table through Lambda
  handlers: sync, list, soft-delete, restore (two variants) and a scheduled
  cleanup. The app pulls and merges the cloud copy when it comes online.
- **Magic-link auth backend.** Handlers request a password reset, validate a
  reset token, confirm a reset, resend a verification link and verify a link.
  They work on token tables keyed by the token string.
- **Browser pages.** The email and password validators, the password strength
  meter, the sign-up, login and reset-password pages, the verification result
  page, the drive pages with their selection logic and OTP gate, the OTP
  modal, and the messages, contacts and chat views.

## How it is modelled

**Modules.** Each module models one source file, part of one, or a small
group of related files:

| module | models |
|---|---|
| `LocalStore` | `src/components/notes/db.js` |
| `NoteList`, `NoteMerge`, `NotesApp` | `src/components/notes/Notes.jsx`: its list helpers (tags, find, sort and filter), the cloud merge, and the page component |
| `NoteTable` | the DynamoDB notes table the note lambdas share (no single file) |
| `SyncNotes`, `GetNotes`, `DeleteNotes`, `RestoreNote`, `RestoreNotes`, `CleanupNotes` | `src/components/notes/lambda/<name>/index.js`, one lambda each |
| `NoteLifecycle` | properties across the note lambdas (no single file) |
| `TokenTable` | the token table the auth lambdas share (no single file) |
| `RequestReset`, `ResendVerification`, `ConfirmReset` | `request-reset.js`, `resend-verification.js` and `confirm-reset.js` under `magic-backend/.aws-sam/build/ResendVerificationFunction/` |
| `ValidateResetToken` | `magic-backend/.aws-sam/build/ValidateResetTokenFunction/validate-reset-token.js` |
| `VerifyToken` | `magic-backend/.aws-sam/build/VerifyFunction/verify.js` |
| `AuthFlows` | runs across the token lambdas and the pages that call them (no single file) |
| `Validators` | the email and password checks of `SignUp.jsx` and `ResetPassword.jsx`, and `src/components/ui/PasswordStrength.jsx` |
| `AuthPages` | `src/components/signUp/SignUp.jsx`, `src/components/login/ResetPassword.jsx` and `src/components/login/Login.jsx` |
| `VerifyPage` | `src/components/verify/Verify.jsx` |
| `OtpModal` | `src/components/OTPModal/OTPModal.jsx` |
| `Drive` | `DriveHome.jsx`, `DriveRecent.jsx`, `DriveShared.jsx` and `DrivePrivate.jsx` under `src/components/drive/sub-routes/` |
| `Messaging` | `src/components/messages/MessagesList.jsx`, `src/components/contacts/ContactsList.jsx` and `src/components/messages/ChatView.jsx` |

Shared value types live in `Wrappers` (Option, truthiness), `Text` (ASCII
lower-casing, substring search, JavaScript `trim`) and `Seqs` (an
order-preserving filter and uniqueness).

**Stateful entities are classes with `modifies` clauses.**

- The Dexie table is `LocalStore.NoteTable`, a map from id to record.
- The DynamoDB note table is `NoteTable.RemoteTable`, a map from
  `(userId, noteId)` to item.
- A token table is `TokenTable.TokenStore`.
- Each React component with state is a class whose fields are its `useState`
  variables. A toast, a navigation or a request the component makes is a
  field or an out-parameter.
- OTPModal's six boxes are an `array<string>`.

**Handlers.** Each Lambda handler is a method over the table it uses. Its
responses are datatypes whose status and body follow the source. The
outcome of every call into AWS (DynamoDB, Cognito, SES) is a parameter,
so every failure branch is reachable.

**Specifications.**

- Pure computations are functions: merge, filters, sorting, masking,
  validators and the strength meter.
- The imperative merge loop and the store loops are methods proved equal to
  those functions.
- Lemmas relate operations to one another: round trips, idempotence,
  preserved invariants, and end-to-end flows across handlers and pages.

**Time.** Clock readings are integers: milliseconds where the source uses
`Date.now()` or ISO strings, and whole seconds where it uses
`Math.floor(Date.now() / 1000)`.

Behaviour of the source that the proofs make visible, stated as lemmas:

- A reset token written by request-reset has `expiresAt` and `username`.
  The reset table's readers look at `expiry` and `email`. So validation
  accepts such a token at any later time, with an undefined email
  (`ValidateResetToken.IssuedResetTokenNeverExpires`,
  `AuthFlows.RequestResetThenOpenLink`). Confirming it works at any time too
  (`AuthFlows.RequestResetThenConfirm`).
- Toggling an id twice restores the drive selection only when the id was
  not selected. For a selected id, the id moves to the end
  (`Drive.ToggleTwiceUnselected`, `Drive.ToggleTwiceReorders`).
- The sign-up and reset-password password policies differ in both
  directions. An underscore counts as a special character only in sign-up.
  A line terminator is rejected only in sign-up
  (`Validators.SignUpDoesNotImplyReset`,
  `Validators.LineTerminatorSplitsPolicies`).
- The login page's resend-verification flow validates the trimmed input
  but sends the untrimmed one (`AuthPages.ResendSendsUntrimmed`).
- The verify lambda's failure redirect goes to `/verify-error`. The page
  table of `src/App.jsx` has no such route; App.jsx is not part of this model.
- After a pull-and-merge every stored note is unsynced, although the list
  on screen shows the cloud copies as synced
  (`NotesApp.SavedMergeUnsynced`).

## Model

| member | source | states |
|---|---|---|
| LocalStore.Stamped | src/components/notes/db.js:18-24 | the record saveNote writes keeps every field of the caller's note except `updatedAt`, which becomes the save time, and `synced`, which becomes false |
| LocalStore.NoteTable.constructor | src/components/notes/db.js:4-7 | the table starts empty, with every record under its own id |
| LocalStore.NoteTable.GetAllNotes | src/components/notes/db.js:10-12 | returns every stored record exactly once, as stored |
| LocalStore.NoteTable.GetNote | src/components/notes/db.js:14-16 | returns the record under the id, and nothing exactly when the id is absent |
| LocalStore.NoteTable.SaveNote | src/components/notes/db.js:18-24 | upserts the restamped, unsynced note under its id; all other records are unchanged |
| LocalStore.NoteTable.DeleteNote | src/components/notes/db.js:27-29 | removes exactly that id; a missing id changes nothing |
| LocalStore.NoteTable.MarkAsSynced | src/components/notes/db.js:31-33 | sets only `synced` on that record; every other record and field is unchanged; a missing id changes nothing |
| LocalStore.NoteTable.GetUnsyncedNotes | src/components/notes/db.js:35-37 | returns exactly the stored records whose `synced` is false, each once |
| LocalStore.SaveThenGet | src/components/notes/db.js:14-24 | getNote right after saveNote returns the caller's note with the save-time `updatedAt` and `synced` false |
| LocalStore.SaveMarkThenGet | src/components/notes/db.js:18-33 | save, then markAsSynced, then get gives the saved note with only `synced` flipped to true |
| NoteTable.PurgeRemovesExactlyExpired | src/components/notes/lambda/cleanup-notes/index.js:9-34 | the purge keeps exactly the items that are not expired (no `deletedAt`, or `deletedAt` not before now), unchanged |
| NoteTable.RemoteTable.constructor | src/components/notes/lambda/sync-notes/index.js:49-52 | the remote table starts empty, with every item stored under its own `(userId, noteId)` key |
| SyncNotes.Normalise | src/components/notes/lambda/sync-notes/index.js:36-47 | the stored item has key (`anonymous`, id) and the given title; content, tags, pinned and favorite are defaulted when absent; `createdAt`/`updatedAt` are kept when given, else now; `lastSynced` is now; there is no `deletedAt` |
| SyncNotes.Handler | src/components/notes/lambda/sync-notes/index.js:13-68 | OPTIONS gives 200, other non-POST methods 405, an unparsable body or a failed put 500, and a missing id or title 400; otherwise the item is put (replacing any soft-deleted one) and 200 reports the sync time; the table changes only on success |
| GetNotes.BuildFilter | src/components/notes/lambda/get-notes/index.js:37-57 | the filter list starts with the not-deleted condition and holds at most four; their conjunction holds exactly when the query matches (tag only when truthy, pinned/favorite when present, `'true'` meaning true) |
| GetNotes.NoQueryListsLive | src/components/notes/lambda/get-notes/index.js:26-57 | with no parameters the listing is every live note in the `anonymous` partition |
| GetNotes.DeletedNeverListed | src/components/notes/lambda/get-notes/index.js:38 | an item with `deletedAt` is never listed, whatever the query |
| GetNotes.Handler | src/components/notes/lambda/get-notes/index.js:13-73 | OPTIONS gives 200, a non-GET 405, a failed query 500; otherwise 200 with exactly the stored items the query lists, each once and unchanged |
| DeleteNotes.Handler | src/components/notes/lambda/delete-notes/index.js:13-77 | OPTIONS gives 200, a non-DELETE 405, a missing id 400, an absent note 404, any other failure 500, each leaving the table unchanged; an existing note (even one already deleted) gets `deletedAt` = now + 7 days and nothing else changes; 200 returns that time |
| RestoreNote.Handler | src/components/notes/lambda/restore-note/index.js:13-71 | OPTIONS gives 200, a non-POST 405, a missing id 400, and an absent or undeleted note 404 with the table unchanged; otherwise `deletedAt` is removed, every other field is kept, and 200 returns the note |
| RestoreNotes.Interleave | src/components/notes/lambda/restore-notes/index.js:47-76 | a write that may land between the get and the update touches only the restored key |
| RestoreNotes.Handler | src/components/notes/lambda/restore-notes/index.js:15-101 | the id must match `^[a-zA-Z0-9-_]+$` (else 400); an absent note gives 404 and a live note 400; otherwise `deletedAt` is removed unless a racing write made the condition fail (404), and any AWS failure gives 500 |
| CleanupNotes.ScanExpired | src/components/notes/lambda/cleanup-notes/index.js:5-17 | the scan returns exactly the expired items of every user, each once and unchanged |
| CleanupNotes.Handler | src/components/notes/lambda/cleanup-notes/index.js:5-51 | deletes expired items one at a time; on success the table is the purge and the message counts the deleted items; a failure at item k returns 500 with the first k deletions kept; a failed scan deletes nothing |
| NoteLifecycle.DeleteThenRestore | src/components/notes/lambda/restore-note/index.js:35-44 | restoring a soft-deleted live item gives back the exact pre-delete item |
| NoteLifecycle.PurgeEligibility | src/components/notes/lambda/delete-notes/index.js:34-35 | a note soft-deleted at t is purge-eligible exactly when now exceeds t + 7 days |
| NoteLifecycle.PurgeKeepsListings | src/components/notes/lambda/cleanup-notes/index.js:9-34 | a purge never changes what get-notes lists, for any query |
| NoteLifecycle.PurgeWaitsForGrace | src/components/notes/lambda/cleanup-notes/index.js:11 | within the grace period a soft-deleted note survives a purge unchanged |
| NoteLifecycle.PurgeAfterGrace | src/components/notes/lambda/cleanup-notes/index.js:11-34 | after the grace period the soft-deleted note is purged, and the live listing is the original one without it |
| NoteLifecycle.SyncRevives | src/components/notes/lambda/sync-notes/index.js:36-52 | syncing a note makes it listed again, even if it was soft-deleted |
| NoteLifecycle.DeleteRestoreRoundTrip | src/components/notes/lambda/restore-note/index.js:35-56 | delete then restore through the two handlers both return 200; the table ends as it began and restore returns the original item |
| NoteLifecycle.DeleteThenList | src/components/notes/lambda/delete-notes/index.js:38-50 | after a successful delete, no listing of any query contains the note |
| NoteLifecycle.CleanupThenList | src/components/notes/lambda/cleanup-notes/index.js:19-35 | running the cleanup handler between two listings leaves the listed keys the same |
| NoteList.AddTag | src/components/notes/Notes.jsx:287-296 | the tag ends up present; a present tag leaves the list unchanged; an absent one is appended at the end |
| NoteList.RemoveTag | src/components/notes/Notes.jsx:315-318 | every occurrence of the tag is dropped; every other tag is kept and no new one appears |
| NoteList.RemoveTagKeepsOrder | src/components/notes/Notes.jsx:315-318 | removing a tag keeps the others in their order |
| NoteList.AddTagIdempotent | src/components/notes/Notes.jsx:287-296 | adding the same tag twice is the same as adding it once |
| NoteList.RemoveUndoesAdd | src/components/notes/Notes.jsx:287-318 | removing a tag just added (absent before) restores the tag list |
| NoteList.FindNote | src/components/notes/Notes.jsx:325 | the first note with the active id, or nothing exactly when there is no active id or no such note |
| NoteList.Insert | src/components/notes/Notes.jsx:322-323 | inserting into a list sorted pinned-first then newest-first keeps it sorted and adds exactly that note |
| NoteList.SortNotes | src/components/notes/Notes.jsx:322-323 | the result is sorted pinned-first, then by `updatedAt` descending, and is a permutation of the input |
| NoteList.FilteredNotesSpec | src/components/notes/Notes.jsx:321-323 | the filtered list is sorted, is a permutation of the notes whose lower-cased title contains the lower-cased term, and holds exactly those notes |
| NoteList.EmptyTermKeepsAll | src/components/notes/Notes.jsx:321-323 | an empty search keeps every note, as a permutation |
| NoteMerge.FromCloud | src/components/notes/Notes.jsx:117-128 | a cloud note becomes a local note with `id` := `noteId`, `synced` := true and its content fields copied |
| NoteMerge.FindIndex | src/components/notes/Notes.jsx:113 | the first position with that id, or -1 exactly when none has it |
| NoteMerge.CloudCopy | src/components/notes/Notes.jsx:110-131 | the cloud note found for an id carries that id |
| NoteMerge.Resolved | src/components/notes/Notes.jsx:113-122 | every local note, in place, is resolved against its cloud copy |
| NoteMerge.MatchedIndex | src/components/notes/Notes.jsx:113 | with unique local ids, `findIndex` on the partly merged list finds a local note's cloud record at the note's own position |
| NoteMerge.MergeAllIsSpec | src/components/notes/Notes.jsx:110-131 | with unique ids, the merge fold equals the declarative merge: local notes in place, each replaced only by a strictly newer cloud copy, then the unmatched cloud notes appended in cloud order |
| NoteMerge.MergeShape | src/components/notes/Notes.jsx:110-131 | the merge keeps every local id at its position; a local note becomes the cloud copy only if that copy is strictly newer; a note absent from the cloud is unchanged; the length grows by the new cloud notes |
| NoteMerge.MergeNotes | src/components/notes/Notes.jsx:110-131 | the index-assigning and appending loop computes exactly the merge fold |
| NotesApp.ReplaceById | src/components/notes/Notes.jsx:274-276 | replacing by id keeps the list's length |
| NotesApp.ReplaceByIdFound | src/components/notes/Notes.jsx:274-276 | after the replacement, the note found under the id is the updated one; notes with other ids are unchanged |
| NotesApp.SaveAllEffect | src/components/notes/Notes.jsx:134-138 | saving a list stores every listed id, restamped and unsynced; records not in the list are unchanged |
| NotesApp.MergeKeepsLocalIds | src/components/notes/Notes.jsx:110-131 | the merged list starts with the local ids, in order |
| NotesApp.SavedMergeUnsynced | src/components/notes/Notes.jsx:102-142 | after pull, merge and save, the store holds exactly the merged ids, all with `synced` false and the same new `updatedAt` |
| NotesApp.NotesPage.constructor | src/components/notes/Notes.jsx:31-39 | the page starts with no notes, no active note and closed modals, online as given |
| NotesApp.NotesPage.SyncNoteToCloud | src/components/notes/Notes.jsx:145-160 | offline: no call and no store change; online: the status ends `online`; the note is marked synced only if the push succeeded |
| NotesApp.PushAllEffect | src/components/notes/Notes.jsx:163-179 | pushing stored notes in turn marks synced exactly the pushed ids whose push is accepted; every other record is unchanged |
| NotesApp.NotesPage.SyncUnsyncedNotes | src/components/notes/Notes.jsx:163-179 | online: attempts every unsynced note once; each unsynced note whose push succeeds is marked synced, and a failure does not stop the rest; offline: nothing happens |
| NotesApp.NotesPage.HandleOnline | src/components/notes/Notes.jsx:62-66 | going online sets the flag and the `online` status and pushes every unsynced note; the note list, the active id, the save flags and the modals stay as they were, and nothing is pulled |
| NotesApp.NotesPage.HandleOffline | src/components/notes/Notes.jsx:68-71 | going offline sets the flag and the `offline` status only: the note list, the active id, the save flags and the modals stay as they were, and the store is untouched |
| NotesApp.NotesPage.LoadNotesFromCloud | src/components/notes/Notes.jsx:102-142 | online with a fetched list: the list becomes the merge of the stored notes with the cloud notes, and every merged note is saved (unsynced, restamped); otherwise nothing changes; the active id, connectivity, status, save flags and modals never change |
| NotesApp.NotesPage.SaveEach | src/components/notes/Notes.jsx:134-138 | the save loop leaves the store equal to saving the notes in order |
| NotesApp.NotesPage.CreateNewNote | src/components/notes/Notes.jsx:230-251 | the new note `note_<uuid>` titled `<date>_<suffix>` is empty, unsynced and stamped now; it is stored, put first and made active; online, it is pushed, marked synced if the push succeeds, and the status ends `online`; connectivity, save flags and modals stay as they were |
| NotesApp.NotesPage.UpdateNoteProperty | src/components/notes/Notes.jsx:267-280 | the active note gets the edit and a new `updatedAt` in the list and in the store, and is pushed exactly when online, which marks it synced when the cloud accepts; the active id, connectivity, modals and save flags stay as they were; with no active note nothing changes |
| NotesApp.NotesPage.Autosave | src/components/notes/Notes.jsx:181-209 | without an active id nothing changes; with an id whose note is missing, `saving` is set and nothing else changes; otherwise the content edit is saved to the list and the store and pushed exactly as `updateNoteProperty` does, and `saving` clears with success shown |
| NotesApp.NotesPage.HandleRename | src/components/notes/Notes.jsx:282-285 | with an active note, its title becomes the value in the list and the store, it is pushed exactly when online, and the rename modal closes while the other flags stay; with none, nothing changes |
| NotesApp.NotesPage.HandleAddTag | src/components/notes/Notes.jsx:287-296 | an empty value, or no active note, changes nothing; otherwise the tag is added to the active note when absent, in the list and the store, the note is pushed exactly when online, and the tag modal closes |
| NotesApp.NotesPage.HandleRemoveTag | src/components/notes/Notes.jsx:315-318 | with an active note, every occurrence of the tag leaves it in the list and the store, and it is pushed exactly when online; modals and save flags stay; with none, nothing changes |
| NotesApp.NotesPage.HandleDeleteNote | src/components/notes/Notes.jsx:299-313 | the active note always leaves the store and the list, and the active id clears; the remote delete is requested only when online; the other flags stay |
| NotesApp.NotesPage.HandleMenuAction | src/components/notes/Notes.jsx:258-265 | with no active id, or an unknown action, nothing changes; `rename` and `addTag` open only their modal; `delete` has the whole effect of deleting the active note; `pin` flips the pinned flag with the whole effect of `updateNoteProperty`, and changes nothing when the active note is missing |
| NotesApp.NotesPage.FilteredNotes | src/components/notes/Notes.jsx:321-323 | the visible list is sorted and holds exactly the notes whose title matches the search |
| NotesApp.NotesPage.ActiveNote | src/components/notes/Notes.jsx:325 | the active note, when found, is in the list and carries the active id |
| TokenTable.Issued | magic-backend/.aws-sam/build/ResendVerificationFunction/request-reset.js:42-58 | a freshly issued record is unused and expires 600 s after issue; it carries `username` and `userPoolId` but no `expiry`, `email` or `usedAt` |
| TokenTable.TokenStore.constructor | magic-backend/.aws-sam/build/VerifyFunction/verify.js:19-22 | a token table starts empty, with each record under its token |
| TokenTable.TokenStore.Lookup | magic-backend/.aws-sam/build/VerifyFunction/verify.js:19-22 | a get by token returns the stored record, and nothing exactly when none exists |
| RequestReset.LocalPart | magic-backend/.aws-sam/build/ResendVerificationFunction/request-reset.js:18 | the local part is the prefix before the first `@` |
| RequestReset.DomainPart | magic-backend/.aws-sam/build/ResendVerificationFunction/request-reset.js:18 | the domain holds no `@` when the address has one |
| RequestReset.Stars | magic-backend/.aws-sam/build/ResendVerificationFunction/request-reset.js:19-22 | n asterisks |
| RequestReset.MaskEmail | magic-backend/.aws-sam/build/ResendVerificationFunction/request-reset.js:17-23 | masking fails exactly when the local part is empty (`repeat(-1)` throws); otherwise it keeps the first character |
| RequestReset.MaskShape | magic-backend/.aws-sam/build/ResendVerificationFunction/request-reset.js:17-23 | for one `@` and a non-empty local part, the mask has the same length, first character and domain; the inner local characters become `*`, and the last one is kept when the local part is longer than two |
| RequestReset.MaskWithoutAt | magic-backend/.aws-sam/build/ResendVerificationFunction/request-reset.js:18-22 | an address without `@` is masked with the domain `undefined` |
| RequestReset.Handler | magic-backend/.aws-sam/build/ResendVerificationFunction/request-reset.js:15-160 | every parsed request returns the same 200 generic body; a record is written only for an existing user when the put succeeds; mail goes out only when SES succeeds too |
| VerifyToken.Classify | magic-backend/.aws-sam/build/VerifyFunction/verify.js:9-42 | the checks run in order: missing, then unknown, then used, then expired (`expiresAt` strictly before now); anything else verifies |
| VerifyToken.UsedBeforeExpired | magic-backend/.aws-sam/build/VerifyFunction/verify.js:28-42 | a token both used and expired is reported `already_used` |
| VerifyToken.AcceptedAtExpiry | magic-backend/.aws-sam/build/VerifyFunction/verify.js:36 | a token is still accepted in the second it expires and rejected one second later |
| VerifyToken.Handler | magic-backend/.aws-sam/build/VerifyFunction/verify.js:6-80 | redirects with the classified reason; only a verified token whose Cognito and table updates succeed is marked used with `usedAt`; any failure redirects with `error` and changes nothing |
| VerifyToken.VerifyTwice | magic-backend/.aws-sam/build/VerifyFunction/verify.js:28-70 | verifying a valid token twice gives `success`, then `already_used` |
| ValidateResetToken.Validate | magic-backend/.aws-sam/build/ValidateResetTokenFunction/validate-reset-token.js:16-56 | a missing token gives 400, a failed lookup 500, an unknown token 400, `Date.now() > expiry` 400; otherwise 200 with `valid` and the record's email |
| ValidateResetToken.IssuedResetTokenNeverExpires | magic-backend/.aws-sam/build/ValidateResetTokenFunction/validate-reset-token.js:39-47 | a record written by request-reset validates at any time, with no email |
| ValidateResetToken.Handler | magic-backend/.aws-sam/build/ValidateResetTokenFunction/validate-reset-token.js:16-56 | the handler answers what the validation function gives for the looked-up record |
| ConfirmReset.Handler | magic-backend/.aws-sam/build/ResendVerificationFunction/confirm-reset.js:19-78 | missing fields give 400 before any lookup; an absent or expired record 400; a password-history violation 400 without CORS; any other failure 500; on success the password is set for the record's user and the record is deleted |
| ConfirmReset.ConfirmTwice | magic-backend/.aws-sam/build/ResendVerificationFunction/confirm-reset.js:42-59 | a second confirm with the same token is rejected as invalid or expired |
| ResendVerification.NotReusableAtExpiry | magic-backend/.aws-sam/build/ResendVerificationFunction/resend-verification.js:43 | a token is not reusable in the second it expires |
| ResendVerification.IssuedReusableWithinLifetime | magic-backend/.aws-sam/build/ResendVerificationFunction/resend-verification.js:43-72 | a freshly issued token is reusable for that email exactly until its 600 s lifetime ends |
| ResendVerification.ScanReusable | magic-backend/.aws-sam/build/ResendVerificationFunction/resend-verification.js:40-49 | the scan returns stored records only, all reusable, and covers every reusable token |
| ResendVerification.Handler | magic-backend/.aws-sam/build/ResendVerificationFunction/resend-verification.js:18-171 | a confirmed user gets 400; otherwise the 200 generic body; for an unconfirmed user a reusable token is linked with no write, or else a fresh record is written and linked |
| AuthFlows.ConfirmAnswersOnPage | src/components/login/ResetPassword.jsx:90-108 | each confirm-reset answer shows the reset page's matching toast |
| AuthFlows.ValidateAnswersOnPage | src/components/login/ResetPassword.jsx:56-70 | every validation answer reaches the page, and the page takes it as valid exactly when the status is 200 |
| AuthFlows.RequestResetThenOpenLink | magic-backend/.aws-sam/build/ResendVerificationFunction/request-reset.js:42-58 | a link from request-reset always opens the reset form, at any later time, with no email |
| AuthFlows.RequestResetThenConfirm | magic-backend/.aws-sam/build/ResendVerificationFunction/confirm-reset.js:27-59 | a reset token from request-reset can be confirmed once, at any later time, for the requesting user; the second attempt is rejected and the token is gone |
| AuthFlows.ResendThenVerify | magic-backend/.aws-sam/build/ResendVerificationFunction/resend-verification.js:56-72 | with nothing reusable, the fresh link verifies within 600 s and is marked used |
| AuthFlows.ResendThenVerifyLate | magic-backend/.aws-sam/build/VerifyFunction/verify.js:36-42 | the fresh link clicked after 600 s redirects with `expired` and stays unused |
| Validators.PatternIsValid | src/components/signUp/SignUp.jsx:13-16 | a string the email regex accepts has no whitespace, its first `@` after a non-empty local part, no second `@`, and a `.` strictly inside the domain |
| Validators.ValidIsPattern | src/components/signUp/SignUp.jsx:13-16 | conversely, every string with those properties is accepted by the email regex |
| Validators.EmailPatternIff | src/components/signUp/SignUp.jsx:13-16 | the email regex holds exactly when there is one `@` with a non-empty local part and no whitespace, and the domain has an inner `.` |
| Validators.CountPassed | src/components/ui/PasswordStrength.jsx:30 | the count of passed requirements is at most their number, and equal exactly when all pass |
| Validators.PassedCount | src/components/ui/PasswordStrength.jsx:4-30 | the passed count of the five requirements lies in 0..5 and is 5 exactly when all pass |
| Validators.StrengthLevel | src/components/ui/PasswordStrength.jsx:35-38 | the level is at most 4 and at most the count |
| Validators.StrengthLevelValues | src/components/ui/PasswordStrength.jsx:35-38 | counts 0..5 give levels 0, 0, 1, 2, 3, 4 |
| Validators.StrengthMonotone | src/components/ui/PasswordStrength.jsx:35-38 | the level is monotone in the count |
| Validators.PolicyIsAllRequirements | src/components/login/ResetPassword.jsx:30-44 | the reset policy holds exactly when all five meter requirements pass, which is exactly level 4 |
| Validators.Render | src/components/ui/PasswordStrength.jsx:27-50 | an empty password renders nothing; otherwise there are four segments, exactly the first `level` active, a check per requirement, and completion exactly when all pass |
| Validators.ActiveSegmentsCount | src/components/ui/PasswordStrength.jsx:43-47 | exactly `level` of the four segments are active |
| Validators.ResetPolicyImpliesSignUp | src/components/signUp/SignUp.jsx:19-23 | a password without line terminators that passes the reset policy passes the sign-up policy |
| Validators.SignUpDoesNotImplyReset | src/components/signUp/SignUp.jsx:21 | `Aa1_aaaa` passes sign-up but not the reset policy |
| Validators.LineTerminatorSplitsPolicies | src/components/signUp/SignUp.jsx:19-23 | a password ending in a newline passes the reset policy but not sign-up |
| AuthPages.ReplyOf | src/components/login/ResetPassword.jsx:56-70 | what the browser reads from a response: a redirect fails to parse; `ok` follows a 2xx status; `valid` and `email` come from a validation body; `error` from an error body |
| AuthPages.SignUpProblem | src/components/signUp/SignUp.jsx:39-51 | the first failing check, in order email, password, match; none exactly when all three pass |
| AuthPages.SignUpPage.constructor | src/components/signUp/SignUp.jsx:27-31 | empty fields, no card, not loading, no toast |
| AuthPages.SignUpPage.HandleSignUp | src/components/signUp/SignUp.jsx:36-86 | a failed check shows its message and sends nothing; otherwise email and password are sent, the card opens only on an ok reply, and `loading` ends false |
| AuthPages.ResetProblem | src/components/login/ResetPassword.jsx:78-88 | a mismatch is reported before the policy; none exactly when both pass |
| AuthPages.ResetOutcome | src/components/login/ResetPassword.jsx:97-108 | success exactly when the reply is ok with no truthy error; a failure shows the server's error, or else the generic message |
| AuthPages.ResetPasswordPage.constructor | src/components/login/ResetPassword.jsx:19-24 | the page keeps the query token, starts loading, with an empty email and an invalid token |
| AuthPages.ResetPasswordPage.LoadToken | src/components/login/ResetPassword.jsx:47-72 | with no truthy token it goes to /login with no request; otherwise it validates, stores the email of a valid reply, else shows an error and goes to /login, and loading ends |
| AuthPages.ResetPasswordPage.HandleResetPassword | src/components/login/ResetPassword.jsx:74-109 | a failed check shows its message and sends nothing; otherwise token and password are sent and the outcome toast shown, going to /login on success |
| AuthPages.LoginPage.constructor | src/components/login/Login.jsx:13-17 | empty fields, closed modals, no toast |
| AuthPages.LoginPage.HandleLogin | src/components/login/Login.jsx:28-44 | the credentials are sent; success shows a toast and goes to /dashboard; failure only shows an error |
| AuthPages.LoginPage.HandleForgotPassword | src/components/login/Login.jsx:46-76 | an invalid trimmed email sends nothing; otherwise the trimmed email is sent, the modal closes and the generic toast shows |
| AuthPages.LoginPage.HandleResendVerification | src/components/login/Login.jsx:80-112 | validates the trimmed email but sends the untrimmed input; success closes the modal with the generic toast |
| AuthPages.ResendSendsUntrimmed | src/components/login/Login.jsx:81-95 | an input with a leading space is accepted, yet the address sent is not itself valid |
| VerifyPage.ReasonParam | src/components/verify/Verify.jsx:9 | the reason is the query parameter when truthy, else `error` |
| VerifyPage.GetMessage | src/components/verify/Verify.jsx:13-64 | success exactly for `success`; every view links to /login with "Go to Login" |
| VerifyPage.AbsentReasonFails | src/components/verify/Verify.jsx:9-62 | an absent reason shows the failure view |
| VerifyPage.MissingAndInvalidAlike | src/components/verify/Verify.jsx:31-54 | `missing_token` and `invalid_token` show the same view |
| VerifyPage.LambdaReasonsOnPage | src/components/verify/Verify.jsx:13-64 | each reason the verify lambda sends shows its own view, and success exactly for a verified token |
| OtpModal.Join | src/components/OTPModal/OTPModal.jsx:54 | no boxes join to the empty code |
| OtpModal.Filled | src/components/OTPModal/OTPModal.jsx:55 | the filled count equals the number of boxes exactly when none is empty |
| OtpModal.JoinShape | src/components/OTPModal/OTPModal.jsx:17-54 | with every box empty or one digit, the code is all digits and as long as the number of filled boxes |
| OtpModal.CodeModal.constructor | src/components/OTPModal/OTPModal.jsx:14 | six empty boxes |
| OtpModal.CodeModal.EnabledIffFilled | src/components/OTPModal/OTPModal.jsx:55 | Verify is enabled exactly when all six boxes are filled, and then the code is six digits |
| OtpModal.CodeModal.HandleChange | src/components/OTPModal/OTPModal.jsx:16-26 | an empty or single-digit value is written at the index with every other box unchanged; any other value changes nothing |
| OtpModal.CodeModal.ClickVerify | src/components/OTPModal/OTPModal.jsx:52-56 | a code is submitted exactly when Verify is enabled; it is the six joined boxes |
| Drive.FileIds | src/components/drive/sub-routes/DriveRecent.jsx:45-46 | the file ids, position by position |
| Drive.Toggle | src/components/drive/sub-routes/DriveRecent.jsx:40-44 | the id's membership flips and no other id's does; an absent id is appended; removal keeps the order |
| Drive.ToggleTwiceUnselected | src/components/drive/sub-routes/DriveRecent.jsx:40-44 | toggling an unselected id twice restores the selection |
| Drive.ToggleTwiceReorders | src/components/drive/sub-routes/DriveRecent.jsx:40-44 | toggling a selected id twice moves it to the end |
| Drive.SelectAllOf | src/components/drive/sub-routes/DriveRecent.jsx:45-46 | equal lengths clear the selection; otherwise all file ids in file order |
| Drive.Unselected | src/components/drive/sub-routes/DriveRecent.jsx:49-52 | keeps exactly the files whose id is not selected, in order |
| Drive.WithoutFile | src/components/drive/sub-routes/DriveRecent.jsx:55-58 | keeps exactly the files with another id, in order |
| Drive.Deselected | src/components/drive/sub-routes/DriveRecent.jsx:55-58 | keeps exactly the other selected ids, in order |
| Drive.HeaderOf | src/components/drive/sub-routes/DriveRecent.jsx:73-76 | never both checked and indeterminate; checked needs files, indeterminate needs a selection |
| Drive.AllSelectedIffLengths | src/components/drive/sub-routes/DriveRecent.jsx:45-75 | for a consistent selection, the length comparison says exactly that every file is selected |
| Drive.HeaderMeaning | src/components/drive/sub-routes/DriveRecent.jsx:73-76 | for a consistent selection, checked means every file selected, and indeterminate means some but not all |
| Drive.SelectAllMeaning | src/components/drive/sub-routes/DriveRecent.jsx:45-46 | select-all clears a full selection and otherwise selects every file; the result stays consistent |
| Drive.ToggleConsistent | src/components/drive/sub-routes/DriveRecent.jsx:40-44 | toggling a file's id keeps the selection consistent |
| Drive.FilteredIdsNoDup | src/components/drive/sub-routes/DriveRecent.jsx:49-58 | filtering the file list keeps its ids distinct |
| Drive.DeleteConsistent | src/components/drive/sub-routes/DriveRecent.jsx:49-58 | both deletes keep the selection consistent |
| Drive.FileTable.constructor | src/components/drive/sub-routes/DriveShared.jsx:29-30 | the table holds the initial files with nothing selected |
| Drive.FileTable.ToggleSelect | src/components/drive/sub-routes/DriveShared.jsx:32-36 | the selection becomes the toggle; files are unchanged |
| Drive.FileTable.SelectAll | src/components/drive/sub-routes/DriveShared.jsx:37-38 | the selection becomes select-all; files are unchanged |
| Drive.FileTable.BulkDelete | src/components/drive/sub-routes/DriveShared.jsx:40-43 | removes exactly the selected files and clears the selection |
| Drive.FileTable.OnDelete | src/components/drive/sub-routes/DriveShared.jsx:45-48 | removes that file and deselects it |
| Drive.FileTable.HeaderState | src/components/drive/sub-routes/DriveShared.jsx:54-57 | the header follows the length rule |
| Drive.PrivatePage.constructor | src/components/drive/sub-routes/DrivePrivate.jsx:66-70 | locked, with the OTP modal shown and no error |
| Drive.PrivatePage.OnVerify | src/components/drive/sub-routes/DrivePrivate.jsx:96-102 | a six-character code unlocks, hides the modal and clears the error; any other leaves the state |
| Drive.PrivatePage.OnClose | src/components/drive/sub-routes/DrivePrivate.jsx:103-110 | hides the modal and shows the error without unlocking, then redirects to /drive/recent |
| Drive.PrivatePage.VerifyFromModal | src/components/drive/sub-routes/DrivePrivate.jsx:96-121 | a code from a filled OTP modal unlocks the page, and then the table shows and the modal does not |
| Drive.RemoveHomeFile | src/components/drive/sub-routes/DriveHome.jsx:63-68 | keeps exactly the files with another id, in order |
| Drive.NewNameMeaning | src/components/drive/sub-routes/DriveHome.jsx:78-84 | a rename happens exactly when a value is given and has a non-whitespace character, and the new name is the trimmed, non-empty value |
| Drive.RenameHomeFile | src/components/drive/sub-routes/DriveHome.jsx:86-88 | renames only the file with the id; the others are unchanged |
| Drive.RenameKeepsIds | src/components/drive/sub-routes/DriveHome.jsx:86-88 | renaming keeps every id in place, and deleting after a rename is the same as deleting without it |
| Drive.RemoveRenamed | src/components/drive/sub-routes/DriveHome.jsx:63-88 | deleting a renamed file leaves what deleting it unrenamed leaves |
| Drive.HomePage.constructor | src/components/drive/sub-routes/DriveHome.jsx:49-54 | the initial files, no selection, modals closed |
| Drive.HomePage.HandleDeleteClick | src/components/drive/sub-routes/DriveHome.jsx:57-60 | selects the file and opens the delete modal |
| Drive.HomePage.HandleRenameClick | src/components/drive/sub-routes/DriveHome.jsx:71-74 | selects the file and opens the rename modal |
| Drive.HomePage.ConfirmDelete | src/components/drive/sub-routes/DriveHome.jsx:63-68 | with a selection, removes exactly that file, clears the selection and closes the modal; without one, nothing |
| Drive.HomePage.ConfirmRename | src/components/drive/sub-routes/DriveHome.jsx:77-91 | with a selection, a blank value keeps the files and a non-blank one renames only that file to the trimmed value; the modal closes; without one, nothing |
| Messaging.TabThenName | src/components/messages/MessagesList.jsx:62-91 | filtering by tab then by name is one filter by both |
| Messaging.FilterChatsIsOneFilter | src/components/messages/MessagesList.jsx:62-91 | the chat list filter is a single filter by the listing predicate |
| Messaging.FilterChatsMeaning | src/components/messages/MessagesList.jsx:62-91 | the result is an order-preserving subsequence holding exactly the chats in the tab that match the name filter |
| Messaging.OtherTabsKeepAll | src/components/messages/MessagesList.jsx:68-81 | any tab but unread, fav and groups keeps every chat |
| Messaging.BlankTermKeepsTab | src/components/messages/MessagesList.jsx:84-88 | a blank term applies only the tab |
| Messaging.ChatsEmptyState | src/components/messages/MessagesList.jsx:96-98 | the empty message shows exactly when no chat is listed |
| Messaging.FilterContacts | src/components/contacts/ContactsList.jsx:12-15 | an order-preserving subsequence holding exactly the contacts whose lower-cased name or email contains the term |
| Messaging.EmptyTermKeepsContacts | src/components/contacts/ContactsList.jsx:12-15 | an empty term keeps every contact |
| Messaging.ContactsEmptyState | src/components/contacts/ContactsList.jsx:17-19 | the empty message shows exactly when no contact matches |
| Messaging.ChatView.constructor | src/components/messages/ChatView.jsx:7-11 | the conversation starts with its two messages and an empty input |
| Messaging.ChatView.SetInput | src/components/messages/ChatView.jsx:7 | the input becomes the typed value; messages are unchanged |
| Messaging.ChatView.HandleSend | src/components/messages/ChatView.jsx:13-17 | a blank input changes nothing; otherwise the untrimmed input is appended from `you` and cleared; old messages stay a prefix |
| Text.Lower | src/components/notes/Notes.jsx:322 | ASCII lower-casing, character by character |
| Text.Includes | src/components/notes/Notes.jsx:322 | `includes` holds exactly when the term occurs at some position |
| Text.LeadingSpaces | src/components/drive/sub-routes/DriveHome.jsx:78 | counts exactly the leading whitespace `trim` removes: every counted character is whitespace and the next one is not |
| Text.TrailingSpaces | src/components/drive/sub-routes/DriveHome.jsx:78 | counts exactly the trailing whitespace `trim` removes: every counted character is whitespace and the one before them is not |
| Text.TrimEmptyIff | src/components/messages/ChatView.jsx:14 | trimming gives the empty string exactly for all-whitespace input |
| Text.IndexOf | magic-backend/.aws-sam/build/ResendVerificationFunction/request-reset.js:18 | the index of the first occurrence, or -1 exactly when there is none |

## Left out

- AWS, Cognito, SES and Amplify calls are not modelled. Each outcome (success or failure, user status, scan result) is a parameter of the handler or page method that makes the call. The email templates are left out.
- Scan and query pagination is left out: the cleanup and the reusable-token scan see one result page.
- JSON parsing, HTTP plumbing, URL building, `encodeURIComponent` and CORS headers are abstracted. Bodies are datatypes, and a missing CORS header is a flag on the response.
- The fetch wrappers in `src/components/api/notes.js` are not part of this model. The notes page takes their outcomes as parameters.
- `Date.now()`, `new Date()`, `uuidv4`, `crypto.randomBytes` and `Math.random` are parameters. ISO timestamp strings are integer milliseconds, since ISO strings of one format compare in the same order. Each handler reads the clock once.
- React runtime behaviour is not modelled: rendering, stale closures over `online`, the 600 ms autosave debounce, the editor configuration and its content loading, DOM focus moves in the OTP modal, and icons and styling.
- Timers are not modelled: the `setTimeout` redirects, the reset of `saveSuccess`, and the verify page's countdown.
- Concurrency is not modelled: each handler runs atomically. The one interleaving restore-notes checks for, a write between its get and its update, is a parameter.
- Regular expressions are written as ASCII character-class predicates, and `toLowerCase` is ASCII only.
- In the drive and messages pages, the static mock data arrays are constructor arguments or parameters. DriveTagged, DriveTrash and the presentation-only components are not part of this model.
- The `/verify-error` route and `src/App.jsx` are not part of this model.
- LocalStore.NoteTable.GetUnsyncedNotes: returns the unsynced records as intended by `where('synced').equals(false)`. IndexedDB does not index booleans, so the real query can return nothing.
- LocalStore.NoteTable.GetAllNotes: promises every record once but not Dexie's primary-key order.
- NotesApp.NotesPage.UpdateNoteProperty: with no active note the source spreads `undefined` into an id-less object that Dexie rejects. The model treats this case as a no-op.
- HandleRename, HandleAddTag, HandleRemoveTag and HandleMenuAction (`pin`): with no active note the source throws before changing any state, either on the rejected save or on reading `activeNote`. The model leaves every field unchanged in these cases and does not model the unhandled rejection itself.
- Validators.PassedCount, Validators.PolicyIsAllRequirements, Validators.ResetPolicyImpliesSignUp, RequestReset.MaskEmail, RequestReset.MaskShape: lengths and positions (the password predicates' `|s| >= 8`, the mask's first and last character) are counted in characters (Unicode scalar values). JavaScript's `.length`, indexing, `slice` and a regex without the `u` flag count UTF-16 code units. The two differ for characters outside the Basic Multilingual Plane: an emoji counts 2 in JavaScript and 1 here, so `Aa1!` followed by two emoji has length 8 in the source and 6 in the model.
- AuthPages.ReplyOf: the page reads every JSON response, including confirm-reset's password-history 400, which carries no CORS headers. A cross-origin browser would reject that `fetch`, and the page would show its catch message instead. The model assumes the page and the lambdas share an origin, or that the API gateway adds the headers.
- RequestReset.Handler, ResendVerification.Handler: `email` is None only when the body does not parse. A body that parses but has no `email` is not a separate input. In the source the Cognito lookup then fails inside the `try` and the generic 200 is returned with nothing written. The model reaches that outcome through its failed-lookup parameter (`userExists` false, `userStatus` None).
- NoteMerge.FromCloud: drops the server-only fields `userId`, `noteId` and `lastSynced`, which the local note type does not have.
