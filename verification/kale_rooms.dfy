/** com.kale.service.RoomService: the earlier room-creation path. A signed-up
    user creates a room whose join code comes from the same generator as in
    the photory service, and becomes its one participant, recorded by email. */
module KaleRooms {
  import opened Outcomes
  import opened Passwords
  import opened RoomCodes
  import opened KaleAuth

  type RoomId = nat

  datatype Room = Room(title: string, password: Hash, code: string, owner: User)

  datatype Participate = Participate(roomId: RoomId, userEmail: Email)

  /** The user, room and participation tables; `nextRoomId` is the id the
      database hands to the next saved room. */
  datatype Store = Store(users: Users, rooms: map<RoomId, Room>, participates: set<Participate>, nextRoomId: RoomId)

  datatype Failure = LoginException | RetriesExhausted

  /** The saved room and the store after the call. */
  datatype Created = Created(store: Store, roomId: RoomId, room: Room)

  /** The codes `roomRepository.findAll()` reports. */
  function Codes(rooms: map<RoomId, Room>): (r: set<string>)
    ensures forall c :: c in r <==> exists id :: id in rooms && rooms[id].code == c
  {
    set id | id in rooms :: rooms[id].code
  }

  function RowsOf(participates: set<Participate>, roomId: RoomId): (rows: set<Participate>)
    ensures forall p :: p in rows <==> p in participates && p.roomId == roomId
  {
    set p | p in participates && p.roomId == roomId
  }

  /** Users sit under their own email, ids are below the next one, rows name
      stored rooms and registered users, owners are registered, and no two
      rooms share a code. */
  ghost predicate Valid(s: Store)
  {
    && KeyedByEmail(s.users)
    && (forall id | id in s.rooms :: id < s.nextRoomId)
    && (forall p | p in s.participates :: p.roomId in s.rooms && p.userEmail in s.users)
    && (forall id | id in s.rooms :: s.rooms[id].owner.email in s.users)
    && (forall i, j | i in s.rooms && j in s.rooms && i != j :: s.rooms[i].code != s.rooms[j].code)
  }

  /** `createRoom`: an unknown email is a `LoginException`; otherwise a room
      with the given title, the encoded password, the first free candidate
      code and the looked-up user as owner is saved, and one participation row
      for the caller's email is added. */
  function CreateRoom(s: Store, enc: PasswordEncoder, userEmail: Email, title: string, password: string,
                      attempts: seq<seq<Draw>>): (r: Result<Created, Failure>)
    requires ValidAttempts(attempts)
    ensures userEmail !in s.users ==> r == Err(LoginException)
    ensures userEmail in s.users ==> (r.Err? <==> GenerateCode(Codes(s.rooms), attempts).None?)
    ensures r.Err? ==> r.error in {LoginException, RetriesExhausted}
    ensures r.Ok? ==>
      var id := r.value.roomId;
      var t := r.value.store;
      var room := r.value.room;
      && userEmail in s.users
      && id == s.nextRoomId
      && room.title == title
      && room.password == enc.encode(password)
      && room.owner == s.users[userEmail]
      && room.code == GenerateCode(Codes(s.rooms), attempts).value
      && WellFormed(room.code)
      && room.code !in Codes(s.rooms)
      && t.rooms == s.rooms[id := room]
      && t.participates == s.participates + {Participate(id, userEmail)}
      && t.users == s.users
      && t.nextRoomId == id + 1
  {
    var user :- if userEmail in s.users then Ok(s.users[userEmail]) else Err(LoginException);
    var code :- GenerateCode(Codes(s.rooms), attempts).OrFail(RetriesExhausted);
    var id := s.nextRoomId;
    var room := Room(title, enc.encode(password), code, user);
    Ok(Created(s.(rooms := s.rooms[id := room],
                  participates := s.participates + {Participate(id, userEmail)},
                  nextRoomId := id + 1),
               id, room))
  }

  /** Creating a room keeps the store valid, and the new room has exactly one
      participation row: the caller's. */
  lemma CreateRoomKeepsValid(s: Store, enc: PasswordEncoder, userEmail: Email, title: string, password: string,
                             attempts: seq<seq<Draw>>)
    requires Valid(s) && ValidAttempts(attempts)
    requires CreateRoom(s, enc, userEmail, title, password, attempts).Ok?
    ensures var c := CreateRoom(s, enc, userEmail, title, password, attempts).value;
            && Valid(c.store)
            && c.roomId !in s.rooms
            && RowsOf(c.store.participates, c.roomId) == {Participate(c.roomId, userEmail)}
  {
    var c := CreateRoom(s, enc, userEmail, title, password, attempts).value;
    var t := c.store;
    var id := c.roomId;
    assert id !in s.rooms;
    assert RowsOf(t.participates, id) == {Participate(id, userEmail)};
    forall i, j | i in t.rooms && j in t.rooms && i != j
      ensures t.rooms[i].code != t.rooms[j].code
    {
      if i == id {
        assert t.rooms[j].code in Codes(s.rooms);
      } else if j == id {
        assert t.rooms[i].code in Codes(s.rooms);
      }
    }
  }

  /** Someone who has just signed up can create a room: the only way
      `createRoom` can then fail is the code generator running out of
      candidates. */
  lemma SignedUpUserCanCreateRoom(s: Store, enc: PasswordEncoder, email: Email, userPassword: string,
                                  title: string, password: string, attempts: seq<seq<Draw>>)
    requires ValidAttempts(attempts)
    requires CreateUser(s.users, enc, email, userPassword).Ok?
    requires GenerateCode(Codes(s.rooms), attempts).Some?
    ensures var s' := s.(users := CreateUser(s.users, enc, email, userPassword).value);
            var r := CreateRoom(s', enc, email, title, password, attempts);
            && r.Ok?
            && r.value.room.owner == User(email, enc.encode(userPassword), RoleUser)
  {
  }
}
