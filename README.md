# Google Meet clone — a Dafny model of its state logic

This project models the state-changing core of a small video-conferencing app.
The server side is a Strapi socket service. The client side is Next.js with zustand
stores. The model has seven parts, one Dafny module per source file, plus three
shared helper modules.

- **SocketService** (`src/api/socket/services/socket.ts`). The process-wide registry of
  active meetings. Each meeting is a JavaScript `Map` from user id to `{socketId,
  username}` plus a last-activity time. The module also models the per-connection
  handlers (`join-meeting`, `chat-message`, `signal`, and the handler bound to both
  `disconnect` and `leave-meeting`) and the periodic sweep of idle meetings.
  - `Meeting` and `Registry` are classes. Their methods mutate `participants`,
    `lastActivity` and `activeMeetings` in place.
  - A `Map`'s insertion order is kept in `Meeting.order`, because the roster and the
    disconnect lookup iterate in that order.
  - Each handler returns the emissions it would send. An emission is addressed either
    to one socket or to a room minus its sender.
  - `Connection` records the meeting object captured when the connection was set up.
    The `signal` relay reads that object, not the registry.
- **MeetingStore** (`store/meeting-store.ts`). The client's participant record. A
  JavaScript object is a map from property names to values, and object spread is map
  union; every action is a pure function on these maps.
- **NewMeetingForm** (`app/meetings/new/page.tsx`). The e-mail check, as a hand-written
  predicate proved equal to the regular expression's language. The invited-e-mail list
  (a `Form` class whose invariant is "all valid, no duplicates"). The form validation,
  and the submit gate.
- **Middleware** (`middleware.ts`). The route guard as a decision function from the
  cookie, a JSON parser and the pathname to `Next` or a redirect.
- **AuthStore** (`store/auth-store.ts`). The signed-in state, its cookie side effect (a
  field `cookie`) and the projection written to local storage.
- **Chat** (`components/meeting/chat.tsx`). The transcript and draft of the chat panel.
- **Controls** (`components/meeting/controls.tsx`). The microphone and camera toggles
  over arrays of track records, and the leave sequence over the streams and the peer
  array. `track.stop()`, `peer.destroy()`, the socket calls and the navigation are
  returned, in order, as a list of effects.
- **Wrappers**, **JsString**, **Seqs**: `Option`; ECMAScript white space, `trim` and
  `startsWith`; duplicate-freedom and filtering one value out of a sequence.

Inputs the code gets from outside are parameters:
- `Date.now()` and `new Date()` become `now: int`.
- Date-time inputs become `Option<int>`, where `None` is the empty string.
- The user-directory lookup becomes `Option<string>`.
- `JSON.parse` becomes `parse: string -> Option<Json>`, with `None` where it throws.
- The outcome of the create-meeting POST becomes `postSucceeded: bool`.
- Whether a socket exists becomes `connected: bool`.

Where the system's design description and the code disagree, the model follows the
code:
- **When a meeting is created.** The description says a room is created on first
  join. The code creates it when a socket connects with that meeting id
  (`Registry.Connect`); a join for a meeting that is absent does nothing.
- **What counts as activity.** The description says signal and chat traffic count as
  activity. The code bumps `lastActivity` only on join and on a successful removal. A
  meeting whose last join is over an hour old is therefore swept while its
  participants are still talking (`StaleMeetingScenario`).
- **How disconnect finds the participant.** The description asks for a reverse index
  from connection to participant. The code scans the participants of the handshake's
  meeting, and its comparison never matches (see Findings).
- **Locking.** The description asks for per-room locking. The code runs one event at a
  time and has no locks, so there is none in the model.

## Model

| member | source | states |
|---|---|---|
| SocketService.Meeting.constructor | src/api/socket/services/socket.ts:47-52 | a new meeting has no participants and its activity time is the creation time |
| SocketService.Meeting.Set | src/api/socket/services/socket.ts:70-73 | `Map.set`: the key maps to the new record, a new key goes last in iteration order, an existing key keeps its place, and duplicate-freedom of the order is kept |
| SocketService.Meeting.Delete | src/api/socket/services/socket.ts:146 | `Map.delete`: exactly that key leaves the map and the order, and the rest keep their order |
| SocketService.Meeting.Leave | src/api/socket/services/socket.ts:146-147 | the participant is deleted and the activity time becomes `now` |
| SocketService.Roster | src/api/socket/services/socket.ts:80-87 | every roster entry is a participant other than the joiner, with that participant's username |
| SocketService.RosterExactlyOthers | src/api/socket/services/socket.ts:80-90 | the roster lists exactly the participants other than the joiner, each once |
| SocketService.Matches | src/api/socket/services/socket.ts:143 | the lookup's comparison: the probed value of an entry is strictly equal to the socket id |
| SocketService.FindBySocket | src/api/socket/services/socket.ts:141-143 | nothing exactly when no entry in the Map passes the comparison; otherwise the key of the first entry in insertion order that passes it, with every earlier entry failing it |
| SocketService.AsWrittenNeverMatches | src/api/socket/services/socket.ts:141-143 | comparing the participant record itself with the socket id finds no one, whatever the meeting holds |
| SocketService.IntendedFindsSocket | src/api/socket/services/socket.ts:141-143 | comparing the record's `socketId` finds someone exactly when a participant holds that socket, and the one found holds it |
| SocketService.Relay | src/api/socket/services/socket.ts:118-135 | at most one message; one exactly when the target is in the captured meeting with a non-empty socket id, and then it goes to that socket with the signal unchanged and `userId = from` |
| SocketService.ChatRelay | src/api/socket/services/socket.ts:112-114 | exactly one emission carrying the message unchanged, to the named room minus the sender |
| SocketService.Expired | src/api/socket/services/socket.ts:22 | a meeting is expired when more than one hour has passed since its last activity |
| SocketService.ExpiryBoundary | src/api/socket/services/socket.ts:22 | a meeting exactly one hour idle is kept, and one a millisecond older is swept |
| SocketService.Registry.constructor | src/api/socket/services/socket.ts:15 | the registry starts empty |
| SocketService.Registry.Connect | src/api/socket/services/socket.ts:46-52 | an absent meeting is created fresh and empty with activity time `now`; an existing one is left as it is; the connection captures the registered meeting object |
| SocketService.Registry.Join | src/api/socket/services/socket.ts:54-110 | the registry's keys never change. An absent meeting or a failed user lookup changes nothing and emits nothing. Otherwise the user's entry is replaced by the latest socket and username, the activity time becomes `now`, and the joiner gets the roster and the rest of the room gets `user-joined` |
| SocketService.Registry.HandleDisconnect | src/api/socket/services/socket.ts:136-169 | for either comparison: no matching non-empty id means nothing changes and nothing is emitted; a match is removed, the activity time is bumped, `user-left` goes to the rest of the room, and the meeting is deleted when it is left empty |
| SocketService.Registry.Evict | src/api/socket/services/socket.ts:145-169 | the participant is removed, the activity time is bumped and a meeting left empty leaves the registry; every meeting stays well formed |
| SocketService.Registry.Disconnect | src/api/socket/services/socket.ts:136-173 | the handler as written, bound to both `disconnect` and `leave-meeting`: the registry and the meeting are unchanged and nothing is emitted |
| SocketService.Registry.Sweep | src/api/socket/services/socket.ts:18-29 | exactly the meetings idle for more than an hour are deleted; the kept ones are the same objects, unchanged |
| SocketService.TwoPartyMesh | src/api/socket/services/socket.ts:54-135 | A joining an empty meeting gets an empty roster, B then gets A, and B's signal for A reaches A's socket marked as from B |
| SocketService.DisconnectAsWrittenScenario | src/api/socket/services/socket.ts:136-173 | when B's transport drops, B stays registered and no one is told |
| SocketService.DisconnectIntendedScenario | src/api/socket/services/socket.ts:141-169 | with the intended comparison B is removed and the room hears `user-left` for B |
| SocketService.StaleMeetingScenario | src/api/socket/services/socket.ts:20-26 | after the sweep, a later joiner finds an empty roster and A's relay, bound to the old meeting, cannot reach them |
| MeetingStore.AsEntry | store/meeting-store.ts:3-10 | a participant spreads to its five properties with their values, plus `isHost` with its value when present |
| MeetingStore.AddParticipant | store/meeting-store.ts:24-36 | the id is added and every other id keeps its entry. The entry has the union of the argument's, the defaults' and the existing entry's properties. Each property takes the existing entry's value if it has one, else the default if there is one, else the argument's |
| MeetingStore.AddNewParticipant | store/meeting-store.ts:27-32 | a new id gets audio and video on and no screen share whatever the argument said, plus its id and username |
| MeetingStore.AddExistingParticipant | store/meeting-store.ts:33 | adding an existing id keeps every property the existing entry has |
| MeetingStore.AddExistingMissingFlag | store/meeting-store.ts:28-33 | an existing entry that lacks a media flag gets the default for it, not the argument's value |
| MeetingStore.AddArgumentFillsGaps | store/meeting-store.ts:28-33 | the argument decides only the properties neither the defaults nor the existing entry set |
| MeetingStore.AddExistingComplete | store/meeting-store.ts:24-36 | re-adding an id whose entry already has every property changes nothing |
| MeetingStore.RemoveParticipant | store/meeting-store.ts:38-42 | exactly that key goes, all others keep their entries |
| MeetingStore.RemoveAbsentParticipant | store/meeting-store.ts:38-42 | removing an absent id is a no-op |
| MeetingStore.AddThenRemove | store/meeting-store.ts:24-42 | removing an id just added gives the original store without that id |
| MeetingStore.UpdateParticipant | store/meeting-store.ts:44-53 | the properties present in `updates` are overwritten, the entry's others are kept, and other ids are untouched |
| MeetingStore.UpdateMediaState | store/meeting-store.ts:55-65 | only the property named by the media type is set, the entry's others and all other ids are untouched |
| MeetingStore.MediaFieldInjective | store/meeting-store.ts:61-62 | audio, video and screen name three different properties |
| MeetingStore.UpdateMediaStateIdempotent | store/meeting-store.ts:55-65 | repeating the same media update changes nothing more |
| MeetingStore.ClearParticipants | store/meeting-store.ts:67-68 | the result holds no id |
| MeetingStore.ClearIsInitial | store/meeting-store.ts:22 | clearing returns the store to its initial empty record |
| NewMeetingForm.ValidEmail | app/meetings/new/page.tsx:25-28 | the e-mail check: no white space, exactly one `@` and not first, and a dot with a character on each side after it |
| NewMeetingForm.ValidEmailIsPattern | app/meetings/new/page.tsx:25-28 | an address the check accepts splits as `a@b.c` with non-empty parts free of white space and `@` |
| NewMeetingForm.PatternIsValidEmail | app/meetings/new/page.tsx:25-28 | every such split is accepted |
| NewMeetingForm.ValidEmailMatchesPattern | app/meetings/new/page.tsx:25-28 | the check holds exactly on the language of `^[^\s@]+@[^\s@]+\.[^\s@]+$` |
| NewMeetingForm.ValidEmailTrimmed | app/meetings/new/page.tsx:36-46 | a valid address is not blank and trimming it is the identity |
| NewMeetingForm.ValidateForm | app/meetings/new/page.tsx:55-79 | no errors exactly when the title is not blank, both times are given, start < end and start >= now. Each field has an error exactly when its own condition fails. The messages are "Title is required", "Start time is required", "End time is required", "End time must be after start time" and "Start time cannot be in the past", and the later check's message wins on the same field |
| NewMeetingForm.HasErrors | app/meetings/new/page.tsx:85 | the error object has at least one key |
| NewMeetingForm.Form.constructor | app/meetings/new/page.tsx:16-22 | empty form, no errors, not loading |
| NewMeetingForm.Form.AddParticipant | app/meetings/new/page.tsx:30-49 | a blank, invalid or already listed draft leaves the list and draft alone and sets the matching message; otherwise the trimmed draft is appended, the draft and the e-mail error are cleared; the list stays valid and duplicate-free |
| NewMeetingForm.Form.RemoveParticipant | app/meetings/new/page.tsx:51-53 | the list becomes the old list without every occurrence of the address, the rest in order; the invariant is kept |
| NewMeetingForm.Form.Submit | app/meetings/new/page.tsx:81-115 | with errors, they are shown and nothing is sent; without, exactly the form's data is sent, a success navigates to `/meetings` and loading ends false |
| Middleware.AuthenticatedBy | middleware.ts:12-18 | a parsed cookie authenticates when its `state` is an object with a truthy `token` and a truthy `user`; a `null` value throws and counts as false |
| Middleware.IsAuthenticated | middleware.ts:5-19 | authenticated when the cookie is present and non-empty, parses, and the parsed value authenticates |
| Middleware.IsAuthPage | middleware.ts:21-23 | the pathname starts with `/auth/login` or `/auth/register` |
| Middleware.Decide | middleware.ts:4-36 | login redirect exactly when not authenticated and not on an auth page; home redirect exactly when authenticated and on one; `next()` otherwise |
| Middleware.UnreadableCookieNotAuthenticated | middleware.ts:5-19 | a missing, empty or unparsable cookie never authenticates |
| Middleware.CookiePayloadAuthenticates | middleware.ts:10-15 | the `{state: {user, token}}` payload the login flow stores authenticates exactly when the user is truthy and the token non-empty |
| Middleware.AuthPagePrefix | middleware.ts:21-23 | every extension of `/auth/login` or `/auth/register` is an auth page |
| AuthStore.Store.constructor | store/auth-store.ts:23-25 | signed out and not initialised |
| AuthStore.Store.SetAuth | store/auth-store.ts:26-29 | user and token set, initialised, cookie holds the same pair |
| AuthStore.Store.Logout | store/auth-store.ts:30-33 | user and token cleared, initialised, cookie removed |
| AuthStore.Store.Partialize | store/auth-store.ts:38-41 | the persisted projection holds exactly user and token |
| AuthStore.PartializeIgnoresInitialized | store/auth-store.ts:38-41 | states differing only in `isInitialized` persist the same way |
| AuthStore.SetAuthThenLogout | store/auth-store.ts:26-33 | signing in then out from any state ends signed out with nothing persisted |
| AuthStore.LogoutTwice | store/auth-store.ts:30-33 | signing out twice equals signing out once |
| Chat.DigitString | components/meeting/chat.tsx:55 | the decimal digits of a natural number: they denote the number, and only a lone `0` starts with `0` |
| Chat.DecimalString | components/meeting/chat.tsx:55 | `toString` of an integer id: the digits of the id, or a minus followed by the digits of its magnitude |
| Chat.DecimalStringInjective | components/meeting/chat.tsx:55 | different ids give different strings |
| Chat.ChatPanel.constructor | components/meeting/chat.tsx:23-24 | empty transcript and draft |
| Chat.ChatPanel.HandleChatMessage | components/meeting/chat.tsx:32-34 | the message is appended at the end, earlier ones unchanged |
| Chat.ChatPanel.EditDraft | components/meeting/chat.tsx:123 | the draft changes, the transcript does not |
| Chat.ChatPanel.SendMessage | components/meeting/chat.tsx:49-68 | no socket or a blank draft: nothing sent or changed; otherwise one `chat-message` with the id as a string, the username, the untrimmed draft and `now`, the same message appended locally, draft cleared |
| Controls.SetEnabled | components/meeting/controls.tsx:41-43 | the tracks after setting `enabled` on those of one kind |
| Controls.StopAll | components/meeting/controls.tsx:76 | the tracks after stopping each of them |
| Controls.SetEnabledEffect | components/meeting/controls.tsx:41-43 | every track of the kind gets the value, the other kind is untouched |
| Controls.ToggleTwiceRestores | components/meeting/controls.tsx:42-44 | setting the inverse then the value restores the tracks exactly when they agreed with the value |
| Controls.StopAllIdempotent | components/meeting/controls.tsx:76-79 | stopping the same stream twice equals stopping it once |
| Controls.StopEffects | components/meeting/controls.tsx:76 | one stop call per track, in index order |
| Controls.DestroyAll | components/meeting/controls.tsx:83-87 | one entry out per entry in, with the same user; an entry with a peer has it destroyed, one without is unchanged |
| Controls.DestroyEffects | components/meeting/controls.tsx:83-87 | only destroy calls, no more than there are entries |
| Controls.DestroyEffectsAppend | components/meeting/controls.tsx:83-87 | the destroy calls of a concatenation are those of the first part, then those of the second, so they follow list order |
| Controls.DestroyEffectsMembers | components/meeting/controls.tsx:83-87 | a user's peer gets a destroy call exactly when some entry for that user has a peer |
| Controls.PeerIndicesLast | components/meeting/controls.tsx:84 | the entries with a peer are those of the shorter list plus the last entry when it has one |
| Controls.DestroyEffectsCount | components/meeting/controls.tsx:83-87 | exactly one destroy call per entry that has a peer |
| Controls.SetTracksEnabled | components/meeting/controls.tsx:41-43 | the array becomes the old tracks with that kind's `enabled` set |
| Controls.StopTracks | components/meeting/controls.tsx:76 | every track stopped, one stop effect per track in order |
| Controls.DestroyPeers | components/meeting/controls.tsx:83-87 | every existing peer destroyed, entries without one untouched, destroy effects in list order |
| Controls.MediaControls.constructor | components/meeting/controls.tsx:36-37 | audio and video flags start on |
| Controls.MediaControls.ToggleAudio | components/meeting/controls.tsx:39-54 | with a stream: flag flipped, every audio track set to the new value, one `media-state-change` with the new value when connected, video untouched; without a stream: nothing |
| Controls.MediaControls.ToggleVideo | components/meeting/controls.tsx:56-71 | the same for video; the audio flag is untouched |
| Controls.ToggleAudioTwice | components/meeting/controls.tsx:39-54 | two toggles restore the flag, restore the tracks exactly when they agreed with the flag, and announce the inverse then the original value |
| Controls.ToggleVideoTwice | components/meeting/controls.tsx:56-71 | the same for video |
| Controls.StopStreams | components/meeting/controls.tsx:75-80 | every camera track, then every screen track, is stopped, one stop call per track, even when both names refer to the same stream |
| Controls.HandleLeave | components/meeting/controls.tsx:73-100 | every camera and screen track stopped, every existing peer destroyed, then `leave-meeting` once and disconnect when connected, then navigation to `/meetings`, in that order |
| JsString.Trim | app/meetings/new/page.tsx:46 | `trim`, white space removed from the start and then from the end |
| JsString.IsBlank | components/meeting/chat.tsx:52 | the string is empty once trimmed |
| JsString.TrimStart | app/meetings/new/page.tsx:31 | removes exactly the leading white space |
| JsString.TrimEnd | app/meetings/new/page.tsx:31 | removes exactly the trailing white space |
| JsString.TrimStartAllWhitespace | components/meeting/chat.tsx:52 | an all-white-space string trims to nothing |
| JsString.BlankIffAllWhitespace | components/meeting/chat.tsx:52 | `!s.trim()` holds exactly when the string is all white space |
| JsString.TrimWithoutWhitespace | app/meetings/new/page.tsx:46 | trimming a string without white space gives it back |
| Seqs.Without | app/meetings/new/page.tsx:52 | the result holds exactly the other elements and never the removed one |
| Seqs.WithoutAppend | app/meetings/new/page.tsx:52 | filtering distributes over concatenation, so survivors keep their order |
| Seqs.WithoutCounts | app/meetings/new/page.tsx:52 | every occurrence goes and the other elements keep their multiplicity |
| Seqs.WithoutDistinct | app/meetings/new/page.tsx:51-53 | filtering keeps a list duplicate-free |

## Left out

- Socket.IO and Strapi plumbing is not modelled: `eventHub`, the missing-`io` guard, `socket.join`, room membership and the logging. Emissions are returned lists, and a room is addressed by name.
- The `setInterval` scheduling, every fifteen minutes, is not modelled; `Sweep` is a method taking `now`, run whenever a caller chooses.
- The user-directory query is an `Option<string>` input. A thrown query and a missing user are both `None`, and the exception is caught and logged.
- The `signal` payload's `type` appears only in a log line. The signal is opaque in the model.
- `toString()` on the server ids: ids are strings in the model. On the client, `user.id.toString()` is `DecimalString`.
- Concurrency: the source has no locking, and events run one at a time.
- The peer negotiation state machine and the screen-share track switching live in files that are not part of this model; the controls only iterate the peers.
- UI rendering, the login page, the meetings list, the API client and the cookie manager are not part of this model. Only the cookie's payload shape is used (`Middleware.CookiePayload`).
- The route guard's `matcher` configuration is not modelled: the guard is modelled for every path.
- `Date` parsing, invalid dates (`NaN`) and time zones: times are integers, and an empty input is `None`.
- The regular-expression engine: the e-mail regex is a hand-written predicate, proved equal to the pattern's language.
- The create-meeting POST, the `invalidEmails` warning and the error logging: the server's answer is the `postSucceeded` input.
- The zustand `persist` rehydration: only the persisted projection is modelled.
- `router.push` is an effect value or an `Option` path; navigation itself is not modelled.
- Browser media objects: a track is a record with `kind`, `enabled` and `stopped`, and a peer is a record with `destroyed`.
- MeetingStore.AsEntry: a property given explicitly as `undefined` is not modelled; `isHost` is either absent or a boolean. In JavaScript a spread `undefined` overwrites an earlier value. So `addParticipant` with `isHost: true` on an entry whose stored `isHost` is `undefined` keeps `undefined`, where the model gives `true`. No caller in the source passes an explicit `undefined`.
- MeetingStore.UpdateParticipant: an `updates` object with a property set to `undefined`, such as `{isAudioEnabled: undefined}`, is not modelled, because `Entry` holds only strings and booleans. In JavaScript such an update would erase the value. No caller in the source passes one.

## Findings

| source | as written | input that shows it | evidently intended | confidence | as-written member | corrected member |
|---|---|---|---|---|---|---|
| src/api/socket/services/socket.ts:141-143 | the `find` callback destructures each Map entry as `[_, socketId]`, so `socketId` is the whole `{socketId, username}` record, and comparing a record with the string `socket.id` by `===` is always false | A with socket "sa" and B with socket "sb" join "m1"; B's socket disconnects: B stays in the meeting, no `user-left` is sent, and an empty meeting is never deleted on leave | compare the record's `socketId` field, so the leaving participant is removed, the room is told and an empty meeting is deleted | not executed; the comparison is between values of different types | SocketService.AsWrittenNeverMatches, SocketService.Registry.Disconnect, SocketService.DisconnectAsWrittenScenario | SocketService.IntendedFindsSocket, SocketService.Registry.HandleDisconnect, SocketService.DisconnectIntendedScenario |
