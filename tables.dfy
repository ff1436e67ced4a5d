/** The two tables the app keeps in local storage — `chatter_users`
    (name → account) and `chatter_rooms` (code → room) — the decisions the
    form handlers take on them, the updates they make to single entries, and
    the consistency the handlers keep between the two tables. */
module Tables {
  import opened Common
  import opened Text
  import opened RoomCodes

  /** A registered user: the password and the codes of the rooms they belong to. */
  datatype Account = Account(password: string, rooms: seq<string>)

  /** One entry of a room's log: a `system` notice or a `user` message. */
  datatype Message =
    | SystemMessage(text: string, timestamp: int)
    | UserMessage(sender: string, text: string, timestamp: int)

  datatype Room = Room(name: string, code: string, creator: string, messages: seq<Message>, members: seq<string>)

  type Users = map<string, Account>
  type Rooms = map<string, Room>

  /** Why a handler stops. The first fourteen are the distinct messages the
      forms display; the others end a handler without a message. */
  datatype Error =
    | EntryLength        // the entry password is not 10 characters long
    | EntryNotDigits     // the entry password holds a non-digit
    | EntryWrong         // the entry password is not the site password
    | LoginIncomplete    // name or password left empty
    | LoginRejected      // unknown name or wrong password
    | NameTooShort       // a new user name needs 3 characters
    | PasswordTooShort   // a new password needs 4 characters
    | PasswordMismatch   // password and confirmation differ
    | NameTaken          // the user name is already registered
    | RoomNameMissing    // the new room has no name
    | CodeMalformed      // a typed room code is not six of [A-Z0-9]
    | CodeInUse          // a typed room code belongs to an existing room
    | CodeLength         // a code to join is not six characters long
    | RoomNotFound       // no room has the code to join
    | NoFreshCode        // every supplied draw gave a taken code: the retry loop has not ended
    | NotSignedIn        // no current user: the handler throws on `currentUser.name`
    | EmptyText          // nothing to send
    | NoOpenRoom         // no room is open
    | OpenRoomMissing    // the open room is no longer in the table

  datatype Outcome = Pass | Fail(error: Error)

  datatype Result<T> = Ok(value: T) | Err(error: Error)

  /** The screens `checkAuthAndNavigate` chooses between. */
  datatype Screen = EntryScreen | AuthScreen | LobbyScreen

  // ---------------------------------------------------------------- entry

  /** `SITE_PASSWORD`: the ten-digit password that unlocks the site. */
  const SitePassword := "1234567890"

  /** The entry handler's checks, in the source's order: length 10, then
      digits only, then equality with the site password. */
  function EntryCheck(password: string): (r: Outcome)
    ensures r.Pass? <==> password == SitePassword
    ensures r == Fail(EntryLength) <==> |password| != 10
    ensures r == Fail(EntryNotDigits) <==> |password| == 10 && !MatchesDigits(password)
    ensures r == Fail(EntryWrong) <==> MatchesDigits(password) && |password| == 10 && password != SitePassword
  {
    if |password| != 10 then Fail(EntryLength)
    else if !MatchesDigits(password) then Fail(EntryNotDigits)
    else if password != SitePassword then Fail(EntryWrong)
    else Pass
  }

  /** `checkAuthAndNavigate`: the entry screen until the site password was
      accepted, then the lobby for a signed-in user and the sign-in screen
      otherwise. */
  function Landing(entryVerified: bool, currentUser: Option<string>): (s: Screen)
    ensures s == EntryScreen <==> !entryVerified
    ensures s == LobbyScreen <==> entryVerified && currentUser.Some?
  {
    if !entryVerified then EntryScreen
    else if currentUser.Some? then LobbyScreen
    else AuthScreen
  }

  // ------------------------------------------------------- login, register

  /** The login handler's decision: the trimmed name of the user to sign in. */
  function LoginCheck(users: Users, rawName: string, password: string): (r: Result<string>)
    ensures r.Ok? <==> Trim(rawName) in users && users[Trim(rawName)].password == password
                       && Trim(rawName) != [] && password != []
    ensures r.Ok? ==> r.value == Trim(rawName)
    ensures r == Err(LoginIncomplete) <==> Trim(rawName) == [] || password == []
    ensures r == Err(LoginRejected) <==> Trim(rawName) != [] && password != []
                                         && (Trim(rawName) !in users || users[Trim(rawName)].password != password)
  {
    var name := Trim(rawName);
    if name == [] || password == [] then Err(LoginIncomplete)
    else if name !in users || users[name].password != password then Err(LoginRejected)
    else Ok(name)
  }

  /** The register handler's decision, with the name check meaning "some
      user has this name". The first failing check decides the error. */
  function RegisterCheck(users: Users, rawName: string, password: string, confirm: string): (r: Result<string>)
    ensures r.Ok? <==> |Trim(rawName)| >= 3 && |password| >= 4 && password == confirm && Trim(rawName) !in users
    ensures r.Ok? ==> r.value == Trim(rawName)
    ensures r == Err(NameTooShort) <==> |Trim(rawName)| < 3
    ensures r == Err(PasswordTooShort) <==> |Trim(rawName)| >= 3 && |password| < 4
    ensures r == Err(PasswordMismatch) <==> |Trim(rawName)| >= 3 && |password| >= 4 && password != confirm
    ensures r == Err(NameTaken) <==> |Trim(rawName)| >= 3 && |password| >= 4 && password == confirm && Trim(rawName) in users
  {
    var name := Trim(rawName);
    if |name| < 3 then Err(NameTooShort)
    else if |password| < 4 then Err(PasswordTooShort)
    else if password != confirm then Err(PasswordMismatch)
    else if name in users then Err(NameTaken)
    else Ok(name)
  }

  /** The property names every plain JavaScript object inherits from
      `Object.prototype`; looking one up on the users object yields a
      truthy value although no user has that name. */
  const InheritedKeys: set<string> := {
    "constructor", "hasOwnProperty", "isPrototypeOf", "propertyIsEnumerable",
    "toLocaleString", "toString", "valueOf", "__proto__",
    "__defineGetter__", "__defineSetter__", "__lookupGetter__", "__lookupSetter__"
  }

  /** `if (users[name])` as the register handler writes it. */
  predicate LooksTaken(users: Users, name: string)
    ensures name in users ==> LooksTaken(users, name)
    ensures name !in InheritedKeys ==> (LooksTaken(users, name) <==> name in users)
  {
    name in users || name in InheritedKeys
  }

  /** The register handler as written: identical to RegisterCheck except that
      a name of an inherited property is reported as taken. */
  function RegisterCheckAsWritten(users: Users, rawName: string, password: string, confirm: string): (r: Result<string>)
    ensures (r != RegisterCheck(users, rawName, password, confirm)) <==>
            (RegisterCheck(users, rawName, password, confirm).Ok? && Trim(rawName) in InheritedKeys)
    ensures r == Err(NameTaken) <==>
            |Trim(rawName)| >= 3 && |password| >= 4 && password == confirm && LooksTaken(users, Trim(rawName))
  {
    var name := Trim(rawName);
    if |name| < 3 then Err(NameTooShort)
    else if |password| < 4 then Err(PasswordTooShort)
    else if password != confirm then Err(PasswordMismatch)
    else if LooksTaken(users, name) then Err(NameTaken)
    else Ok(name)
  }

  /** With no user registered at all, the name "constructor" is refused as
      taken by the handler as written, and accepted by the corrected check. */
  lemma InheritedNameRefused()
    ensures RegisterCheckAsWritten(map[], "constructor", "secret", "secret") == Err(NameTaken)
    ensures RegisterCheck(map[], "constructor", "secret", "secret") == Ok("constructor")
  {
    var name := "constructor";
    assert !IsSpace(name[0]) && !IsSpace(name[|name| - 1]);
    assert TrimStart(name) == name;
    assert TrimEnd(name) == name;
  }

  // ------------------------------------------------------- create and join

  /** The create-room handler's decision: the code of the new room. A typed
      code (trimmed, upper-cased) must be six of [A-Z0-9] and unused; with no
      typed code, the retry loop's first unused generated code is taken. */
  function CreateCheck(rooms: Rooms, rawName: string, rawCode: string, attempts: seq<seq<real>>): (r: Result<string>)
    requires AreDrawBatches(attempts)
    ensures r.Ok? <==> (Trim(rawName) != [] &&
              if Trim(rawCode) != [] then MatchesRoomCode(ToUpper(Trim(rawCode))) && ToUpper(Trim(rawCode)) !in rooms
              else FirstFree(rooms.Keys, attempts).Some?)
    ensures r.Ok? ==> MatchesRoomCode(r.value) && r.value !in rooms
    ensures r.Ok? && Trim(rawCode) != [] ==> r.value == ToUpper(Trim(rawCode))
    ensures r.Ok? && Trim(rawCode) == [] ==> r.value == FirstFree(rooms.Keys, attempts).value
    ensures r == Err(RoomNameMissing) <==> Trim(rawName) == []
    ensures r == Err(CodeMalformed) <==> Trim(rawName) != [] && Trim(rawCode) != [] && !MatchesRoomCode(ToUpper(Trim(rawCode)))
    ensures r == Err(CodeInUse) <==> Trim(rawName) != [] && MatchesRoomCode(ToUpper(Trim(rawCode))) && ToUpper(Trim(rawCode)) in rooms
    ensures r == Err(NoFreshCode) <==> Trim(rawName) != [] && Trim(rawCode) == [] && FirstFree(rooms.Keys, attempts).None?
  {
    var typed := ToUpper(Trim(rawCode));
    if Trim(rawName) == [] then Err(RoomNameMissing)
    else if typed != [] then
      if !MatchesRoomCode(typed) then Err(CodeMalformed)
      else if typed in rooms then Err(CodeInUse)
      else Ok(typed)
    else
      match FirstFree(rooms.Keys, attempts)
      case None => Err(NoFreshCode)
      case Some(code) => Ok(code)
  }

  /** The join handler's decision: the code of the room to join. */
  function JoinCheck(rooms: Rooms, rawCode: string): (r: Result<string>)
    ensures r.Ok? <==> |Trim(rawCode)| == 6 && ToUpper(Trim(rawCode)) in rooms
    ensures r.Ok? ==> r.value == ToUpper(Trim(rawCode)) && r.value in rooms
    ensures r == Err(CodeLength) <==> |Trim(rawCode)| != 6
    ensures r == Err(RoomNotFound) <==> |Trim(rawCode)| == 6 && ToUpper(Trim(rawCode)) !in rooms
  {
    var code := ToUpper(Trim(rawCode));
    if |code| != 6 then Err(CodeLength)
    else if code !in rooms then Err(RoomNotFound)
    else Ok(code)
  }

  /** A room's own code, as shown in the lobby, always finds that room. */
  lemma JoinFindsShownCode(rooms: Rooms, code: string)
    requires RoomsKeyedByCode(rooms) && code in rooms
    ensures JoinCheck(rooms, rooms[code].code) == Ok(code)
  {
    RoomCodeNormalises(code);
  }

  // ------------------------------------------------------- entry updates

  /** The notices the handlers log, appended to the acting user's name. */
  const CreatedNotice := "さんがルームを作成しました"
  const JoinedNotice := "さんが入室しました"
  const LeftNotice := "さんが退出しました"

  /** The room the create handler stores under `code`. */
  function NewRoom(name: string, code: string, creator: string, now: int): (r: Room)
    ensures r.name == name && r.code == code && r.creator == creator
    ensures r.members == [creator] && NoDup(r.members)
    ensures r.messages == [SystemMessage(creator + CreatedNotice, now)]
  {
    Room(name, code, creator, [SystemMessage(creator + CreatedNotice, now)], [creator])
  }

  /** The join handler's update of a room: a newcomer is added to the members
      with one notice; a member's repeated join changes nothing. */
  function Admit(room: Room, who: string, now: int): (r: Room)
    ensures who in r.members && room.messages <= r.messages
    ensures r.name == room.name && r.code == room.code && r.creator == room.creator
    ensures who in room.members ==> r == room
    ensures who !in room.members ==>
              && r.members == room.members + [who]
              && r.messages == room.messages + [SystemMessage(who + JoinedNotice, now)]
    ensures forall n :: n in r.members <==> n in room.members || n == who
    ensures NoDup(room.members) ==> NoDup(r.members)
  {
    if who in room.members then room
    else room.(members := room.members + [who],
               messages := room.messages + [SystemMessage(who + JoinedNotice, now)])
  }

  /** The leave handler's update of a room: every occurrence of the user is
      removed from the members and exactly one notice is appended. */
  function Depart(room: Room, who: string, now: int): (r: Room)
    ensures who !in r.members
    ensures forall n :: n != who ==> (n in r.members <==> n in room.members)
    ensures r.messages == room.messages + [SystemMessage(who + LeftNotice, now)]
    ensures r.name == room.name && r.code == room.code && r.creator == room.creator
    ensures NoDup(room.members) ==> NoDup(r.members)
  {
    room.(members := RemoveAll(room.members, who),
          messages := room.messages + [SystemMessage(who + LeftNotice, now)])
  }

  /** The send handler's update of a room: one `user` message at the end. */
  function Post(room: Room, sender: string, text: string, now: int): (r: Room)
    ensures r.name == room.name && r.code == room.code && r.creator == room.creator
    ensures r.members == room.members
    ensures |r.messages| == |room.messages| + 1 && room.messages < r.messages
    ensures r.messages[|room.messages|] == UserMessage(sender, text, now)
  {
    room.(messages := room.messages + [UserMessage(sender, text, now)])
  }

  /** The account update of create and join: the code added unless present. */
  function Enrol(account: Account, code: string): (r: Account)
    ensures r.password == account.password
    ensures code in r.rooms && account.rooms <= r.rooms
    ensures code in account.rooms ==> r == account
    ensures forall c :: c in r.rooms <==> c in account.rooms || c == code
    ensures NoDup(account.rooms) ==> NoDup(r.rooms)
  {
    account.(rooms := AddIfAbsent(account.rooms, code))
  }

  /** The account update of leave: every occurrence of the code removed. */
  function Withdraw(account: Account, code: string): (r: Account)
    ensures r.password == account.password
    ensures code !in r.rooms
    ensures forall c :: c != code ==> (c in r.rooms <==> c in account.rooms)
    ensures NoDup(account.rooms) ==> NoDup(r.rooms)
  {
    account.(rooms := RemoveAll(account.rooms, code))
  }

  /** Joining twice is joining once: the second join changes neither the
      room nor the account. */
  lemma JoinIsIdempotent(room: Room, account: Account, who: string, code: string, t1: int, t2: int)
    ensures Admit(Admit(room, who, t1), who, t2) == Admit(room, who, t1)
    ensures Enrol(Enrol(account, code), code) == Enrol(account, code)
  {
    AddIfAbsentIdempotent(account.rooms, code);
  }

  // ------------------------------------------------------- invariants

  /** Every room is stored under its own code, and that code is well formed. */
  predicate RoomsKeyedByCode(rooms: Rooms) {
    forall c :: c in rooms ==> rooms[c].code == c && MatchesRoomCode(c)
  }

  /** What the handlers keep true of the two tables: rooms keyed by their
      code; no duplicate members and no duplicate room codes per user; members
      and creators are registered users, listed codes are rooms; and a user
      is a member of a room exactly when the room is on the user's list. */
  predicate Consistent(users: Users, rooms: Rooms) {
    && RoomsKeyedByCode(rooms)
    && (forall c :: c in rooms ==> NoDup(rooms[c].members) && rooms[c].creator in users)
    && (forall n :: n in users ==> NoDup(users[n].rooms))
    && (forall c, n {:trigger n in rooms[c].members} :: c in rooms && n in rooms[c].members ==> n in users)
    && (forall n, c {:trigger c in users[n].rooms} :: n in users && c in users[n].rooms ==> c in rooms)
    && (forall c, n {:trigger n in rooms[c].members} {:trigger c in users[n].rooms} ::
          c in rooms && n in users ==> (n in rooms[c].members <==> c in users[n].rooms))
  }

  /** Seen from a room: every member is a registered user whose list names
      the room. */
  lemma MembersListTheirRooms(users: Users, rooms: Rooms, code: string)
    requires Consistent(users, rooms) && code in rooms
    ensures forall n :: n in rooms[code].members ==> n in users && code in users[n].rooms
  {
  }

  /** Message logs only grow, and no room disappears. */
  predicate LogsExtend(before: Rooms, after: Rooms) {
    forall c :: c in before ==> c in after && before[c].messages <= after[c].messages
  }

  /** Registering a new name keeps the tables consistent. */
  lemma RegisterPreserves(users: Users, rooms: Rooms, name: string, password: string)
    requires Consistent(users, rooms) && name !in users
    ensures Consistent(users[name := Account(password, [])], rooms)
  {
  }

  /** Creating a room under an unused well-formed code keeps the tables consistent. */
  lemma CreatePreserves(users: Users, rooms: Rooms, name: string, code: string, me: string, now: int)
    requires Consistent(users, rooms) && me in users
    requires MatchesRoomCode(code) && code !in rooms
    ensures Consistent(users[me := Enrol(users[me], code)], rooms[code := NewRoom(name, code, me, now)])
  {
  }

  /** Joining an existing room keeps the tables consistent. */
  lemma JoinPreserves(users: Users, rooms: Rooms, code: string, me: string, now: int)
    requires Consistent(users, rooms) && me in users && code in rooms
    ensures Consistent(users[me := Enrol(users[me], code)], rooms[code := Admit(rooms[code], me, now)])
  {
  }

  /** A member's repeated join changes neither table. */
  lemma RepeatedJoinChangesNothing(users: Users, rooms: Rooms, code: string, me: string, now: int)
    requires Consistent(users, rooms) && me in users && code in rooms && me in rooms[code].members
    ensures rooms[code := Admit(rooms[code], me, now)] == rooms
    ensures users[me := Enrol(users[me], code)] == users
  {
  }

  /** Leaving a room keeps the tables consistent. */
  lemma LeavePreserves(users: Users, rooms: Rooms, code: string, me: string, now: int)
    requires Consistent(users, rooms) && me in users && code in rooms
    ensures Consistent(users[me := Withdraw(users[me], code)], rooms[code := Depart(rooms[code], me, now)])
  {
  }

  /** Posting a message keeps the tables consistent. */
  lemma PostPreserves(users: Users, rooms: Rooms, code: string, sender: string, text: string, now: int)
    requires Consistent(users, rooms) && code in rooms
    ensures Consistent(users, rooms[code := Post(rooms[code], sender, text, now)])
  {
  }

  // ------------------------------------------------------- lobby listing

  /** `userRooms.filter(code => rooms[code])`: the listed codes that name a
      room, in the order of the list. */
  function Present(codes: seq<string>, rooms: Rooms): (r: seq<string>)
    ensures forall c :: c in r <==> c in codes && c in rooms
    ensures |r| <= |codes|
    ensures (forall c :: c in codes ==> c in rooms) ==> r == codes
  {
    if codes == [] then []
    else if codes[0] in rooms then [codes[0]] + Present(codes[1..], rooms)
    else Present(codes[1..], rooms)
  }

  /** The filter works element by element, so it keeps the surviving codes
      in the order of the list. */
  lemma {:induction false} PresentDistributes(a: seq<string>, b: seq<string>, rooms: Rooms)
    ensures Present(a + b, rooms) == Present(a, rooms) + Present(b, rooms)
  {
    if a == [] {
      assert a + b == b;
    } else {
      assert (a + b)[1..] == a[1..] + b;
      PresentDistributes(a[1..], b, rooms);
    }
  }

  /** The codes `updateMyRooms` lists for `me`. */
  function MyRooms(users: Users, rooms: Rooms, me: string): (r: seq<string>)
    ensures forall c :: c in r <==> me in users && c in users[me].rooms && c in rooms
    ensures me !in users ==> r == []
  {
    Present(if me in users then users[me].rooms else [], rooms)
  }

  /** In consistent tables the lobby lists exactly the user's rooms, and the
      user is a member of each of them. */
  lemma MyRoomsAreMemberships(users: Users, rooms: Rooms, me: string)
    requires Consistent(users, rooms) && me in users
    ensures MyRooms(users, rooms, me) == users[me].rooms
    ensures forall c :: c in MyRooms(users, rooms, me) ==> c in rooms && me in rooms[c].members
  {
  }
}
