/** The registry behind the app's screens: each event handler of the entry,
    sign-in, lobby and chat screens becomes one method of `Registry`, which
    holds the two stored tables and the session values the handlers update. */
module Chatter {
  import opened Common
  import opened Text
  import opened RoomCodes
  import opened Tables

  /** The tables after the current user leaves the open room (`doLeaveRoom`):
      the room, when it still exists, loses the user and gains one notice;
      the user's list loses the room's code. With no open room nothing changes. */
  function LeaveTables(users: Users, rooms: Rooms, openRoom: Option<string>, me: string, now: int): (r: (Users, Rooms))
    requires me in users
    ensures r.0.Keys == users.Keys && r.1.Keys == rooms.Keys
    ensures forall n :: n in users && n != me ==> r.0[n] == users[n]
    ensures forall c :: c in rooms && openRoom != Some(c) ==> r.1[c] == rooms[c]
    ensures openRoom.None? ==> r == (users, rooms)
    ensures openRoom.Some? ==> r.0[me] == Withdraw(users[me], openRoom.value)
    ensures openRoom.Some? && openRoom.value in rooms ==> r.1[openRoom.value] == Depart(rooms[openRoom.value], me, now)
  {
    match openRoom
    case None => (users, rooms)
    case Some(c) =>
      (users[me := Withdraw(users[me], c)],
       if c in rooms then rooms[c := Depart(rooms[c], me, now)] else rooms)
  }

  /** Leaving keeps the tables consistent and lets no log shrink; afterwards
      the left room is off the user's list and the user off its members. */
  lemma LeaveTablesPreserves(users: Users, rooms: Rooms, openRoom: Option<string>, me: string, now: int)
    requires Consistent(users, rooms) && me in users
    ensures var (users', rooms') := LeaveTables(users, rooms, openRoom, me, now);
      && Consistent(users', rooms')
      && LogsExtend(rooms, rooms')
      && (openRoom.Some? ==> openRoom.value !in users'[me].rooms)
      && (openRoom.Some? && openRoom.value in rooms' ==> me !in rooms'[openRoom.value].members)
  {
    if openRoom.Some? {
      var c := openRoom.value;
      if c in rooms {
        LeavePreserves(users, rooms, c, me, now);
      } else {
        assert c !in users[me].rooms;
        assert users[me := Withdraw(users[me], c)] == users;
      }
    }
  }

  /** The checks of the create-room handler, in its order, and the retry
      loop that draws a code until it is unused. */
  method DecideNewRoomCode(rooms: Rooms, rawName: string, rawCode: string, attempts: seq<seq<real>>)
    returns (r: Result<string>)
    requires AreDrawBatches(attempts)
    ensures r == CreateCheck(rooms, rawName, rawCode, attempts)
  {
    var name := Trim(rawName);
    if name == [] {
      return Err(RoomNameMissing);
    }
    var typed := ToUpper(Trim(rawCode));
    if typed != [] {
      if !MatchesRoomCode(typed) {
        return Err(CodeMalformed);
      }
      if typed in rooms {
        return Err(CodeInUse);
      }
      return Ok(typed);
    }
    var picked := PickFreshCode(rooms.Keys, attempts);
    if picked.None? {
      return Err(NoFreshCode);
    }
    r := Ok(picked.value);
  }

  class Registry {
    /** `chatter_users` and `chatter_rooms` in local storage. */
    var users: Users
    var rooms: Rooms
    /** `chatter_currentUser` and `chatter_entry` in session storage. */
    var currentUser: Option<string>
    var entryVerified: bool
    /** The page's `currentRoom`, whether `messagePollingInterval` holds a
        timer, and whether `confirmCallback` holds the leave action (the only
        callback the page ever registers). */
    var currentRoom: Option<string>
    var polling: bool
    var confirmPending: bool

    ghost predicate Valid()
      reads this
    {
      && Consistent(users, rooms)
      && (currentUser.Some? ==> currentUser.value in users)
      && (polling <==> currentRoom.Some?)
    }

    /** Page load: the stored tables and session values, no room open. */
    constructor (storedUsers: Users, storedRooms: Rooms, signedIn: Option<string>, verified: bool)
      requires Consistent(storedUsers, storedRooms)
      requires signedIn.Some? ==> signedIn.value in storedUsers
      ensures Valid()
      ensures users == storedUsers && rooms == storedRooms
      ensures currentUser == signedIn && entryVerified == verified
      ensures currentRoom == None && !polling && !confirmPending
    {
      users, rooms := storedUsers, storedRooms;
      currentUser, entryVerified := signedIn, verified;
      currentRoom, polling, confirmPending := None, false, false;
    }

    /** The entry button: only the site password sets the verified flag, after
      which navigation leaves the entry screen. */
    method SubmitEntry(password: string) returns (r: Outcome)
      requires Valid()
      modifies this`entryVerified
      ensures Valid()
      ensures r == EntryCheck(password)
      ensures entryVerified == (old(entryVerified) || password == SitePassword)
      ensures r.Pass? ==> Landing(entryVerified, currentUser) != EntryScreen
    {
      if |password| != 10 {
        return Fail(EntryLength);
      }
      if !MatchesDigits(password) {
        return Fail(EntryNotDigits);
      }
      if password != SitePassword {
        return Fail(EntryWrong);
      }
      entryVerified := true;
      r := Pass;
    }

    /** The login button: on success the user becomes the current user; the
        tables are untouched either way. */
    method Login(rawName: string, password: string) returns (r: Result<string>)
      requires Valid()
      modifies this`currentUser
      ensures Valid()
      ensures r == LoginCheck(users, rawName, password)
      ensures currentUser == if r.Ok? then Some(r.value) else old(currentUser)
    {
      var name := Trim(rawName);
      if name == [] || password == [] {
        return Err(LoginIncomplete);
      }
      if name !in users || users[name].password != password {
        return Err(LoginRejected);
      }
      currentUser := Some(name);
      r := Ok(name);
    }

    /** The register button: on success exactly one account is added, with no
        rooms, no other account changes, and the new user is signed in. */
    method Register(rawName: string, password: string, confirm: string) returns (r: Result<string>)
      requires Valid()
      modifies this`users, this`currentUser
      ensures Valid()
      ensures r == RegisterCheck(old(users), rawName, password, confirm)
      ensures r.Ok? ==> users == old(users)[r.value := Account(password, [])] && currentUser == Some(r.value)
      ensures r.Ok? ==> r.value !in old(users) && |users| == |old(users)| + 1
      ensures r.Err? ==> users == old(users) && currentUser == old(currentUser)
    {
      var name := Trim(rawName);
      if |name| < 3 {
        return Err(NameTooShort);
      }
      if |password| < 4 {
        return Err(PasswordTooShort);
      }
      if password != confirm {
        return Err(PasswordMismatch);
      }
      if name in users {
        return Err(NameTaken);
      }
      RegisterPreserves(users, rooms, name, password);
      users := users[name := Account(password, [])];
      currentUser := Some(name);
      r := Ok(name);
    }

    /** The logout button. */
    method Logout()
      requires Valid()
      modifies this`currentUser
      ensures Valid() && currentUser == None
    {
      currentUser := None;
    }

    /** The create-room button. The new room is stored under its own code,
        which was not in use; it has the current user as creator and only
        member and one notice; no other room changes, and the code is added
        to the creator's list unless already there. */
    method CreateRoom(rawName: string, rawCode: string, attempts: seq<seq<real>>, now: int) returns (r: Result<string>)
      requires Valid() && AreDrawBatches(attempts)
      modifies this`users, this`rooms
      ensures Valid()
      ensures CreateCheck(old(rooms), rawName, rawCode, attempts).Err? ==> r == CreateCheck(old(rooms), rawName, rawCode, attempts)
      ensures CreateCheck(old(rooms), rawName, rawCode, attempts).Ok? ==>
                r == if currentUser.None? then Err(NotSignedIn) else CreateCheck(old(rooms), rawName, rawCode, attempts)
      ensures r.Err? ==> users == old(users) && rooms == old(rooms)
      ensures r.Ok? ==> r.value !in old(rooms) && MatchesRoomCode(r.value)
      ensures r.Ok? ==>
                && rooms == old(rooms)[r.value := NewRoom(Trim(rawName), r.value, currentUser.value, now)]
                && users == old(users)[currentUser.value := Enrol(old(users)[currentUser.value], r.value)]
      ensures LogsExtend(old(rooms), rooms)
    {
      var decided := DecideNewRoomCode(rooms, rawName, rawCode, attempts);
      if decided.Err? {
        return decided;
      }
      if currentUser.None? {
        return Err(NotSignedIn);
      }
      Create(Trim(rawName), decided.value, now);
      r := decided;
    }

    /** The create handler past its checks: store the new room under its
        unused code and add the code to the creator's list. */
    method Create(name: string, code: string, now: int)
      requires Valid() && currentUser.Some? && MatchesRoomCode(code) && code !in rooms
      modifies this`users, this`rooms
      ensures Valid()
      ensures rooms == old(rooms)[code := NewRoom(name, code, currentUser.value, now)]
      ensures users == old(users)[currentUser.value := Enrol(old(users)[currentUser.value], code)]
      ensures LogsExtend(old(rooms), rooms)
    {
      var me := currentUser.value;
      CreatePreserves(users, rooms, name, code, me, now);
      rooms := rooms[code := NewRoom(name, code, me, now)];
      var account := users[me];
      if code !in account.rooms {
        account := account.(rooms := account.rooms + [code]);
      }
      users := users[me := account];
    }

    /** The join button: the checks of JoinCheck, then Join as the current user. */
    method JoinRoom(rawCode: string, now: int) returns (r: Result<string>)
      requires Valid()
      modifies this`users, this`rooms, this`currentRoom, this`polling
      ensures Valid()
      ensures r == if JoinCheck(old(rooms), rawCode).Ok? && currentUser.None? then Err(NotSignedIn)
                   else JoinCheck(old(rooms), rawCode)
      ensures r.Err? ==> users == old(users) && rooms == old(rooms)
                         && currentRoom == old(currentRoom) && polling == old(polling)
      ensures r.Ok? ==>
                && rooms == old(rooms)[r.value := Admit(old(rooms)[r.value], currentUser.value, now)]
                && users == old(users)[currentUser.value := Enrol(old(users)[currentUser.value], r.value)]
                && currentRoom == Some(r.value) && polling
      ensures LogsExtend(old(rooms), rooms)
    {
      var decided := JoinCheck(rooms, rawCode);
      if decided.Err? {
        return decided;
      }
      if currentUser.None? {
        return Err(NotSignedIn);
      }
      Join(decided.value, now);
      r := decided;
    }

    /** The join handler past its checks: the room admits the user (a
        newcomer gains membership and one notice), the code is added to the
        user's list unless already there, and `enterRoom(code)` opens the room.
        A member's repeated join leaves both tables as they were
        (RepeatedJoinChangesNothing). */
    method Join(code: string, now: int)
      requires Valid() && code in rooms && currentUser.Some?
      modifies this`users, this`rooms, this`currentRoom, this`polling
      ensures Valid()
      ensures rooms == old(rooms)[code := Admit(old(rooms)[code], currentUser.value, now)]
      ensures users == old(users)[currentUser.value := Enrol(old(users)[currentUser.value], code)]
      ensures currentRoom == Some(code) && polling
    {
      var me := currentUser.value;
      JoinPreserves(users, rooms, code, me, now);
      var room, account := rooms[code], users[me];
      assert me in room.members <==> code in account.rooms;
      if me !in room.members {
        room := room.(members := room.members + [me],
                      messages := room.messages + [SystemMessage(me + JoinedNotice, now)]);
      }
      if code !in account.rooms {
        account := account.(rooms := account.rooms + [code]);
      }
      rooms, users := rooms[code := room], users[me := account];
      var entered := EnterRoom(code);
    }

    /** `enterRoom(code)`: open an existing room and (re)start the single
        polling timer; an unknown code changes nothing. */
    method EnterRoom(code: string) returns (entered: bool)
      requires Valid()
      modifies this`currentRoom, this`polling
      ensures Valid()
      ensures entered == (code in rooms)
      ensures entered ==> currentRoom == Some(code) && polling
      ensures !entered ==> currentRoom == old(currentRoom) && polling == old(polling)
    {
      if code !in rooms {
        return false;
      }
      currentRoom := Some(code);
      polling := true;
      entered := true;
    }

    /** The back-to-lobby button: stop polling and close the room. */
    method BackToLobby()
      requires Valid()
      modifies this`currentRoom, this`polling
      ensures Valid()
      ensures currentRoom == None && !polling
    {
      polling := false;
      currentRoom := None;
    }

    /** The leave menu item (`leaveRoom`): with a room open, ask for
        confirmation; the leave itself runs on ConfirmOk. */
    method RequestLeave()
      requires Valid()
      modifies this`confirmPending
      ensures Valid()
      ensures confirmPending == (old(confirmPending) || currentRoom.Some?)
    {
      if currentRoom.Some? {
        confirmPending := true;
      }
    }

    /** `doLeaveRoom`: the tables become LeaveTables of the old ones, the room
        is closed and polling stops. Without a current user the handler throws
        before anything is saved. */
    method DoLeaveRoom(now: int) returns (r: Outcome)
      requires Valid()
      modifies this`users, this`rooms, this`currentRoom, this`polling
      ensures Valid()
      ensures r == if old(currentUser).None? then Fail(NotSignedIn) else Pass
      ensures r.Fail? ==> users == old(users) && rooms == old(rooms)
                          && currentRoom == old(currentRoom) && polling == old(polling)
      ensures r.Pass? ==> (users, rooms) == LeaveTables(old(users), old(rooms), old(currentRoom), currentUser.value, now)
      ensures r.Pass? ==> currentRoom == None && !polling
      ensures LogsExtend(old(rooms), rooms)
    {
      if currentUser.None? {
        return Fail(NotSignedIn);
      }
      Leave(now);
      r := Pass;
    }

    /** `doLeaveRoom` past its first read of the current user. */
    method Leave(now: int)
      requires Valid() && currentUser.Some?
      modifies this`users, this`rooms, this`currentRoom, this`polling
      ensures Valid()
      ensures (users, rooms) == LeaveTables(old(users), old(rooms), old(currentRoom), currentUser.value, now)
      ensures currentRoom == None && !polling
      ensures LogsExtend(old(rooms), rooms)
    {
      var me := currentUser.value;
      LeaveTablesPreserves(users, rooms, currentRoom, me, now);
      if currentRoom.Some? {
        var c := currentRoom.value;
        if c in rooms {
          var room := rooms[c];
          rooms := rooms[c := room.(members := RemoveAll(room.members, me),
                                    messages := room.messages + [SystemMessage(me + LeftNotice, now)])];
        }
        users := users[me := users[me].(rooms := RemoveAll(users[me].rooms, c))];
      }
      polling := false;
      currentRoom := None;
    }

    /** The OK button of the confirmation dialog: run the pending leave and
        clear it. A leave that throws leaves the callback pending. */
    method ConfirmOk(now: int) returns (r: Outcome)
      requires Valid()
      modifies this`users, this`rooms, this`currentRoom, this`polling, this`confirmPending
      ensures Valid()
      ensures !old(confirmPending) ==>
                && r == Pass && !confirmPending
                && users == old(users) && rooms == old(rooms)
                && currentRoom == old(currentRoom) && polling == old(polling)
      ensures old(confirmPending) ==> r == if currentUser.None? then Fail(NotSignedIn) else Pass
      ensures old(confirmPending) ==> confirmPending == r.Fail?
      ensures old(confirmPending) && r.Pass? ==>
                (users, rooms) == LeaveTables(old(users), old(rooms), old(currentRoom), currentUser.value, now)
                && currentRoom == None && !polling
      ensures old(confirmPending) && r.Fail? ==>
                users == old(users) && rooms == old(rooms)
                && currentRoom == old(currentRoom) && polling == old(polling)
      ensures LogsExtend(old(rooms), rooms)
    {
      if confirmPending {
        r := DoLeaveRoom(now);
        if r.Pass? {
          confirmPending := false;
        }
      } else {
        r := Pass;
      }
    }

    /** The cancel button, or a click on the dialog's backdrop. */
    method ConfirmCancel()
      requires Valid()
      modifies this`confirmPending
      ensures Valid() && !confirmPending
    {
      confirmPending := false;
    }

    /** The send button: append exactly one `user` message from the current
        user to the open room; every earlier message stays as it was. */
    method SendMessage(rawText: string, now: int) returns (r: Outcome)
      requires Valid()
      modifies this`rooms
      ensures Valid()
      ensures Trim(rawText) == [] ==> r == Fail(EmptyText)
      ensures Trim(rawText) != [] && currentRoom.None? ==> r == Fail(NoOpenRoom)
      ensures Trim(rawText) != [] && currentRoom.Some? && currentRoom.value !in old(rooms) ==>
                r == Fail(OpenRoomMissing)
      ensures Trim(rawText) != [] && currentRoom.Some? && currentRoom.value in old(rooms) ==>
                r == if currentUser.None? then Fail(NotSignedIn) else Pass
      ensures r.Fail? ==> rooms == old(rooms)
      ensures r.Pass? ==>
                rooms == old(rooms)[currentRoom.value := Post(old(rooms)[currentRoom.value], currentUser.value, Trim(rawText), now)]
      ensures r.Pass? ==>
                var log, log' := old(rooms)[currentRoom.value].messages, rooms[currentRoom.value].messages;
                |log'| == |log| + 1 && log < log' && log'[|log|] == UserMessage(currentUser.value, Trim(rawText), now)
      ensures LogsExtend(old(rooms), rooms)
    {
      var text := Trim(rawText);
      if text == [] {
        return Fail(EmptyText);
      }
      if currentRoom.None? {
        return Fail(NoOpenRoom);
      }
      var code := currentRoom.value;
      if code !in rooms {
        return Fail(OpenRoomMissing);
      }
      if currentUser.None? {
        return Fail(NotSignedIn);
      }
      var me := currentUser.value;
      PostPreserves(users, rooms, code, me, text, now);
      var room := rooms[code];
      rooms := rooms[code := room.(messages := room.messages + [UserMessage(me, text, now)])];
      r := Pass;
    }
  }
}
