# Chatter registry model

Chatter is a browser chat application. Its local-storage version keeps two
tables: `chatter_users` maps a user name to an account, which holds a
password and the codes of the user's rooms. `chatter_rooms` maps a six-character
room code to a room, which holds a name, its code, a creator, a message log and
a member list. The session keeps a few more values: the signed-in user, whether
the site password was entered, the open room, the polling timer and a
pending confirmation. Every form handler of `app.js` reads the tables, runs
its checks in a fixed order, and either stops with an error or updates an
entry of one or both tables.

The model has five modules:

- `Common` holds `Option` and the two list updates the handlers use. One is
  `includes` followed by `push`; the other is `filter` with `!==`.
- `Text` holds `trim`, ASCII `toUpperCase`, and the patterns `/^\d+$/` and
  `/^[A-Z0-9]{6}$/`.
- `RoomCodes` holds `generateRoomCode` and the create handler's loop that
  draws again while the code is taken. `Math.random()` becomes a parameter:
  a sequence of reals in [0, 1).
- `Tables` holds the datatypes and one error value per distinct message. It
  also holds the pure decisions of each form, the single-entry updates
  (admit, depart, post, enrol, withdraw), and the consistency invariant the
  handlers keep between the two tables. Each update has a lemma saying it
  preserves that invariant.
- `Chatter` holds the class `Registry`. Its fields are the tables and the
  session values. Each handler is one method, proved against the decision
  function and the update functions, and each method keeps `Valid()`.

Some source details carry over to the model:

- `Date.now()` becomes a parameter `now`.
- Dereferencing a null `currentUser` throws a TypeError before anything is
  saved. The model reports this as the error `NotSignedIn` and changes nothing.
- The typed room codes are upper-cased, so no code typed into the create or
  join form can name an `Object.prototype` property. Room lookups therefore
  behave as plain key lookups.

## Model

| member | source | states |
|---|---|---|
| Common.AddIfAbsent | app.js:316-318 | The list then contains the code. Its elements are the old elements plus the code. The old list is a prefix of the result, which grows by at most one. A list without duplicates stays without duplicates. |
| Common.AddIfAbsentIdempotent | app.js:316-318 | Adding the same code a second time leaves the list as the first addition left it. |
| Common.RemoveAll | app.js:440-442 | The element no longer occurs. Every other element is kept exactly when it was there before. The list does not grow and is unchanged when the element was absent. Lists without duplicates stay without duplicates. |
| Common.RemoveAllIdempotent | app.js:453-455 | Filtering out the same element twice is filtering it once. |
| Common.RemoveAllDistributes | app.js:453-455 | Filtering a concatenation filters each part in place, so the survivors keep their relative order. |
| Text.IsSpace | app.js:121 | The characters `trim` strips: the ECMAScript WhiteSpace and LineTerminator code points (tab, vertical tab, form feed, space, no-break space, byte order mark and the Unicode space separators, then LF, CR and the line and paragraph separators). Every trimmed input (app.js:121, 147, 207, 220, 285, 626) uses this class. |
| Text.Trim | app.js:121 | The result has no whitespace at either end. It is empty exactly when the input is all whitespace, which is when the source's `!name` or `!text` test succeeds. |
| Text.TrimIsMiddle | app.js:121 | The result is a contiguous middle part of the input, and everything cut off before and after it is whitespace. |
| Text.TrimIdempotent | app.js:626 | Trimming a trimmed string changes nothing. |
| Text.UpperChar | app.js:220 | A lower-case ASCII letter maps to the capital at the same place in the alphabet; every other character is kept. |
| Text.ToUpper | app.js:285 | Each character is upper-cased in place by UpperChar, so the length is kept and no lower-case ASCII letter is left. A character falls in `[A-Z0-9]` exactly when it was alphanumeric before. |
| Text.ToUpperIdempotent | app.js:220 | Upper-casing twice is upper-casing once. |
| Text.MatchesDigits | app.js:82 | `/^\d+$/.test`: at least one character, and every character an ASCII digit. |
| Text.MatchesRoomCode | app.js:223 | `/^[A-Z0-9]{6}$/.test`: exactly six characters, each an upper-case ASCII letter or an ASCII digit. |
| Text.RoomCodeNormalises | app.js:285 | A well-formed room code survives the join form's trim and upper-casing unchanged. |
| RoomCodes.AlphabetIsCodeClass | app.js:46 | The 36-character alphabet is exactly the class `[A-Z0-9]`. |
| RoomCodes.AlphabetHasNoRepeats | app.js:46 | No character occurs twice in the alphabet. |
| RoomCodes.Pick | app.js:49 | `Math.floor(Math.random() * chars.length)` is always an index of the alphabet. |
| RoomCodes.CodeOf | app.js:45-52 | Every code built from six draws matches `/^[A-Z0-9]{6}$/`. |
| RoomCodes.GenerateRoomCode | app.js:45-52 | The character-appending loop returns the code the draws determine, and that code is well formed. |
| RoomCodes.EveryCodeIsReachable | app.js:45-52 | Every six-character `[A-Z0-9]` code is produced by some choice of draws, so the generator's range is exactly the well-formed codes. |
| RoomCodes.IndexIn | app.js:49 | The returned position holds the character. |
| RoomCodes.FirstFree | app.js:234-238 | A chosen code is well formed and not taken. It is the code of an attempt whose every earlier attempt gave a taken code, so it is the first free one. No code is chosen exactly when every attempt gives a taken code. |
| RoomCodes.PickFreshCode | app.js:234-238 | The retry loop settles on the first attempt whose code is not taken, or on none. |
| Tables.EntryCheck | app.js:77-93 | The password is accepted exactly when it equals the site password. The errors follow the source's order: wrong length, then a non-digit, then a wrong password, each exactly under its own condition. |
| Tables.Landing | app.js:680-692 | Without the entry flag the entry screen is shown. The lobby is shown exactly when the flag is set and a user is signed in. |
| Tables.LoginCheck | app.js:121-133 | Sign-in succeeds for the trimmed name exactly when both fields are non-empty and the stored password matches. An empty field gives `LoginIncomplete`. Both fields filled with an unknown name or a wrong password gives `LoginRejected`. |
| Tables.RegisterCheck | app.js:147-170 | Registration succeeds exactly when the trimmed name has 3 characters, the password has 4, the confirmation matches and the name is not registered. Each error holds exactly under its own condition, in the source's order: too short a name, too short a password, a mismatched confirmation, then a registered name (`NameTaken`). |
| Tables.RegisterCheckAsWritten | app.js:147-170 | It gives `NameTaken` exactly when the earlier checks pass and `users[name]` is truthy, that is, the name is registered or is an inherited property name of a JavaScript object. It differs from RegisterCheck exactly when RegisterCheck accepts such an inherited name. |
| Tables.InheritedNameRefused | app.js:167 | With no users, the handler as written refuses "constructor" as taken, while the corrected check accepts it. |
| Tables.CreateCheck | app.js:207-238 | A room is accepted exactly when the trimmed name is non-empty and either the typed code, trimmed and upper-cased, is well formed and unused, or no code is typed and some draw gives a free code. An accepted code is well formed and unused. It is the typed code when one is typed and otherwise the first free drawn code. The missing-name, malformed-code, code-in-use and exhausted-draws errors each hold exactly under their own condition. |
| Tables.JoinCheck | app.js:285-297 | Join succeeds exactly when the trimmed code has 6 characters and its upper-cased form is a room. A wrong length gives `CodeLength`. A six-character code that is not a room gives `RoomNotFound`. |
| Tables.JoinFindsShownCode | app.js:354-363 | The code the lobby shows for a room, typed into the join form, finds that room. |
| Tables.Admit | app.js:302-310 | The user becomes a member and name, code and creator are kept. A member's room is returned unchanged. A newcomer is appended at the end of the members, and exactly the join notice of that user at `now` is appended to the log. Duplicate-free members stay duplicate-free. |
| Tables.Depart | app.js:439-447 | The user is no longer a member and every other member stays. Exactly one leave notice is appended. Name, code and creator are kept. |
| Tables.JoinIsIdempotent | app.js:302-319 | A second join changes neither the room nor the account. |
| Tables.RepeatedJoinChangesNothing | app.js:302-319 | In consistent tables, an existing member's join leaves both tables exactly as they were. |
| Tables.NewRoom | app.js:241-251 | The new room has the given name, code and creator. The creator is its only member, and its log is exactly the creation notice. |
| Tables.Post | app.js:635-640 | The log gains exactly one entry at its end: a `user` message with the sender, text and time. Earlier messages, members, name, code and creator are kept. |
| Tables.Enrol | app.js:255-261 | The code is on the account's list afterwards, and the old list is a prefix of the new one. The elements are the old ones plus the code, and an already listed code changes nothing. The password is kept and duplicates are not introduced. |
| Tables.Withdraw | app.js:452-455 | The code is off the account's list. Every other code is kept exactly when it was listed, the password is kept and duplicates are not introduced. |
| Tables.LooksTaken | app.js:167 | Every registered name looks taken. A name that is not an inherited property name looks taken exactly when it is registered. |
| Tables.Consistent | app.js:241-262 | The invariant the handlers keep. Rooms are keyed by their own well-formed code, and creators and members are registered users. Member and room lists have no duplicates, and every listed code is a room. A user is a member of a room exactly when the room is on the user's list. |
| Tables.LogsExtend | app.js:241-251 | The invariant every state change keeps: no room disappears and each room's message log only grows, earlier messages kept as they were. Every method that changes the rooms ensures it. |
| Tables.MembersListTheirRooms | app.js:302-320 | In consistent tables every member of a room is registered and has that room on their list. |
| Tables.RegisterPreserves | app.js:172 | Adding a new account with no rooms keeps the tables consistent. |
| Tables.CreatePreserves | app.js:241-262 | Storing a new room under an unused code and enrolling the creator keeps the tables consistent. |
| Tables.JoinPreserves | app.js:302-320 | Admitting the user and enrolling the code keeps the tables consistent. |
| Tables.LeavePreserves | app.js:439-457 | Removing the user from a room and the code from the user keeps the tables consistent. |
| Tables.PostPreserves | app.js:635-642 | Appending a message keeps the tables consistent. |
| Tables.Present | app.js:354 | The filter keeps exactly the listed codes that are rooms, and it keeps the whole list when every code is a room. |
| Tables.PresentDistributes | app.js:354 | Filtering a concatenation filters each part in place, so the kept codes stay in list order. |
| Tables.MyRooms | app.js:346-354 | The lobby lists exactly the codes on the user's list that name a room. An unregistered user has an empty list. |
| Tables.MyRoomsAreMemberships | app.js:346-354 | In consistent tables the lobby lists exactly the user's room list, and the user is a member of every listed room. |
| Chatter.LeaveTables | app.js:438-457 | Leaving withdraws the open room's code from the user's list and departs the user from that room when it still exists. No user or room is added or removed, no other entry changes, and with no open room nothing changes. |
| Chatter.LeaveTablesPreserves | app.js:433-457 | Leaving keeps the tables consistent and the logs growing. Afterwards the left code is off the user's list and the user is not a member of the left room. |
| Chatter.DecideNewRoomCode | app.js:207-238 | The create handler's imperative checks and retry loop decide exactly what CreateCheck decides. |
| Chatter.Registry.constructor | app.js:65-66 | The page starts from the stored tables and session values, with no room open, no timer and nothing pending. |
| Chatter.Registry.SubmitEntry | app.js:74-94 | The outcome is EntryCheck's. Only the site password sets the flag, and after it the entry screen is left. |
| Chatter.Registry.Login | app.js:120-137 | The outcome is LoginCheck's. Success signs the user in; the tables never change. |
| Chatter.Registry.Register | app.js:146-176 | The outcome is RegisterCheck's. Success adds exactly one account, new and with no rooms, and signs it in. Failure changes nothing. |
| Chatter.Registry.Logout | app.js:201-204 | No user is signed in afterwards. |
| Chatter.Registry.CreateRoom | app.js:206-272 | A failed CreateCheck is returned as it is. Otherwise the result is CreateCheck's code, or NotSignedIn with no user. Success stores the new room under an unused well-formed code, touches no other room and enrols the creator. Failure changes nothing. |
| Chatter.Registry.Create | app.js:240-262 | The rooms gain the new room under its code, and the creator's account gains the code unless already listed. |
| Chatter.Registry.JoinRoom | app.js:284-325 | The result is JoinCheck's, or NotSignedIn with no user. Success admits the user, enrols the code and opens the room. Failure changes nothing. |
| Chatter.Registry.Join | app.js:299-324 | The room admits the user, the account enrols the code, and the room is open and polled. |
| Chatter.Registry.EnterRoom | app.js:604-622 | The room is opened and polled exactly when its code is in the table. An unknown code changes nothing. |
| Chatter.Registry.BackToLobby | app.js:380-387 | The room is closed and polling stops. |
| Chatter.Registry.RequestLeave | app.js:428-431 | The confirmation becomes pending exactly when a room is open, or when one was already pending. |
| Chatter.Registry.DoLeaveRoom | app.js:433-466 | With no user it fails and changes nothing. Otherwise the tables become LeaveTables of the old ones, the room is closed and polling stops. |
| Chatter.Registry.Leave | app.js:437-464 | The tables become LeaveTables of the old ones, no room is open and no timer runs. |
| Chatter.Registry.ConfirmOk | app.js:482-488 | With nothing pending nothing changes. Otherwise the leave runs and the pending callback is cleared exactly when the leave did not throw. A leave that throws (no user signed in) leaves the tables, the open room and polling as they were, with the callback still pending. |
| Chatter.Registry.ConfirmCancel | app.js:490-500 | Nothing is pending afterwards. |
| Chatter.Registry.SendMessage | app.js:624-645 | Empty text, no open room and a missing room each give their own error and change nothing. Otherwise exactly one `user` message from the current user is appended to the open room, earlier messages stay, and no other room changes. |

## Left out

- Storage I/O (app.js:8-42) is left out: the JSON round trip through `localStorage` and `sessionStorage`. The tables and session values are fields.
- Screens, DOM updates and HTML building are left out, including `showScreen`, `renderMessages`, the HTML of `updateMyRooms`, `escapeHtml`, `showRoomInfo` and modal visibility. They read state and never write the tables.
- `formatTime`, the settings screen and `applySettings` are left out: locale formatting and CSS classes.
- The `setInterval` timer and the cross-tab `storage` event listener are left out. Polling is a boolean field.
- The clipboard copy button is left out; it is a browser API.
- The keypress-Enter bindings are left out. They only click the same buttons.
- The tab switch, menu toggling, settings button and room-info button are left out; they are UI only.
- `firebase-config.example.js` is left out; it is a configuration literal with no logic.
- RoomCodes.PickFreshCode: the source loop draws until it finds an unused code and has no bound. The model takes a finite list of draw batches and reports `NoFreshCode` when every batch gives a taken code.
- Text.ToUpper, Tables.CreateCheck, Tables.JoinCheck, Chatter.DecideNewRoomCode, Chatter.Registry.CreateRoom and Chatter.Registry.JoinRoom: only ASCII letters are upper-cased. JavaScript's `toUpperCase` also maps other letters and can change a string's length. The typed code "ſſſſſſ" (long s) becomes "SSSSSS" in JavaScript, so app.js:223 accepts it as a room code and app.js:294 looks it up. The model refuses it on create as `CodeMalformed` and on join as `RoomNotFound`. Likewise "abcdß" becomes the six characters "ABCDSS" in JavaScript, while the model keeps five characters and gives `CodeMalformed` on create and `CodeLength` on join.
- Tables.EntryCheck, Tables.RegisterCheck, Tables.RegisterCheckAsWritten, Tables.JoinCheck, Chatter.Registry.SubmitEntry, Chatter.Registry.Register and Chatter.Registry.JoinRoom: lengths are counted in characters, but JavaScript's `.length` counts UTF-16 code units. A character outside the Basic Multilingual Plane counts as two there. The name "😀😀" has length 4 in JavaScript and passes the three-character check at app.js:151, but the model refuses it as `NameTooShort`. The same applies to the 10-character entry password (app.js:77), the 4-character password (app.js:156) and the 6-character join code (app.js:288).
- The source's fallback for an account with no `rooms` array is left out (app.js:256-258, 313-315). Accounts are created with `rooms: []`, so the model always has the list.
- Chatter.Registry.Register: it follows the corrected decision Tables.RegisterCheck, not the handler as written. It therefore registers the name of an inherited `Object.prototype` property such as "constructor", which app.js:167 refuses as taken (see Findings; Tables.RegisterCheckAsWritten models the refusal).
- Chatter.Registry.Leave: the optional-chaining guard `users[currentUser.name]?.rooms` (app.js:452) is not modelled, because the invariant keeps the signed-in user registered.
- The invariant assumes the stored tables are consistent at page load. Data written by other versions of the app is not modelled.

## Findings

| source | as written | input that shows it | evidently intended | confidence | as-written member | corrected member |
|---|---|---|---|---|---|---|
| app.js:167 | `if (users[name])` also holds for names that a plain object inherits from `Object.prototype` | register "constructor" with password and confirmation "secret" while no user exists: refused as "already in use" | refuse only names some user has registered | not executed | Tables.RegisterCheckAsWritten, Tables.InheritedNameRefused | Tables.RegisterCheck, used by Chatter.Registry.Register |
