/** com.photory.service.RoomService: the room lifecycle as transitions of the
    store. Each operation runs its guards in the order the service does and
    returns either the exception the first failing guard throws or the store
    after its writes. A failure carries no store: the transition leaves the
    state as it was. */
module RoomService {
  import opened Outcomes
  import opened Passwords
  import opened RoomCodes
  import opened PhotoryStore

  /** Nothing outside the room, participation and code tables changed. */
  predicate RoomTablesOnly(s: Store, t: Store)
  {
    && t.users == s.users
    && t.feeds == s.feeds
    && t.feedImages == s.feedImages
    && t.nextFeedId == s.nextFeedId
  }

  /** `room` differs from `before` in `participantsCount` alone. */
  predicate OnlyCountChanged(before: Room, room: Room, delta: int)
  {
    room == before.(participantsCount := before.participantsCount + delta)
  }

  /** `createRoom`: a new active room owned by the caller, whose code is the
      first free candidate, with the caller as its one participant. */
  function CreateRoom(s: Store, enc: PasswordEncoder, email: Email, title: string, password: string,
                      attempts: seq<seq<Draw>>): (r: Result<Store, Failure>)
    requires ValidAttempts(attempts)
    ensures email !in s.users ==> r == Err(UnAuthorized)
    ensures email in s.users ==> (r.Err? <==> GenerateCode(Codes(s.rooms), attempts).None?)
    ensures r.Err? ==> r.error in {UnAuthorized, RetriesExhausted}
    ensures r.Ok? ==>
      var id := s.nextRoomId;
      var t := r.value;
      && email in s.users
      && id in t.rooms
      && var room := t.rooms[id];
      && room.title == title
      && room.password == enc.encode(password)
      && room.ownerId == s.users[email]
      && room.participantsCount == 1
      && room.status
      && room.code == GenerateCode(Codes(s.rooms), attempts).value
      && WellFormed(room.code)
      && room.code !in Codes(s.rooms)
      && t.rooms == s.rooms[id := room]
      && t.byCode == s.byCode[room.code := id]
      && t.participates == s.participates + {Participate(id, s.users[email])}
      && t.nextRoomId == id + 1
      && RoomTablesOnly(s, t)
  {
    var uid :- FindUserByEmail(s.users, email);
    var code :- GenerateCode(Codes(s.rooms), attempts).OrFail(RetriesExhausted);
    var id := s.nextRoomId;
    var room := Room(title, enc.encode(password), code, uid, 1, true);
    Ok(s.(rooms := s.rooms[id := room],
          byCode := s.byCode[code := id],
          participates := s.participates + {Participate(id, uid)},
          nextRoomId := id + 1))
  }

  /** `joinRoom`: the room is looked up by code; then the password, the
      capacity and an existing participation are checked, in that order. The
      room's status is never consulted. */
  function JoinRoom(s: Store, enc: PasswordEncoder, email: Email, code: string, password: string): (r: Result<Store, Failure>)
    ensures email !in s.users ==> r == Err(UnAuthorized)
    ensures email in s.users && FindByCode(s, code).None? ==> r == Err(NotFoundRoom)
    ensures email in s.users && FindByCode(s, code).Some? ==>
      var id := FindByCode(s, code).value;
      var room := s.rooms[id];
      var uid := s.users[email];
      && (!enc.matches(password, room.password) ==> r == Err(InvalidPassword))
      && (enc.matches(password, room.password) && room.participantsCount >= Capacity ==>
              r == Err(ExceedRoomCapacity))
      && (enc.matches(password, room.password) && room.participantsCount < Capacity && InRoom(s, id, uid) ==>
              r == Err(AlreadyInRoom))
      && (enc.matches(password, room.password) && room.participantsCount < Capacity && !InRoom(s, id, uid) ==>
              r.Ok?)
    ensures r.Ok? ==>
      && email in s.users && FindByCode(s, code).Some?
      && var id := FindByCode(s, code).value;
      && var uid := s.users[email];
      && !InRoom(s, id, uid)
      && r.value.participates == s.participates + {Participate(id, uid)}
      && id in r.value.rooms
      && OnlyCountChanged(s.rooms[id], r.value.rooms[id], 1)
      && r.value.rooms[id].participantsCount <= Capacity
      && r.value.rooms == s.rooms[id := r.value.rooms[id]]
      && r.value.byCode == s.byCode && r.value.nextRoomId == s.nextRoomId
      && RoomTablesOnly(s, r.value)
  {
    var uid :- FindUserByEmail(s.users, email);
    var id :- FindByCode(s, code).OrFail(NotFoundRoom);
    var room := s.rooms[id];
    if !enc.matches(password, room.password) then Err(InvalidPassword)
    else if room.participantsCount >= Capacity then Err(ExceedRoomCapacity)
    else if InRoom(s, id, uid) then Err(AlreadyInRoom)
    else
      Ok(s.(participates := s.participates + {Participate(id, uid)},
            rooms := s.rooms[id := room.(participantsCount := room.participantsCount + 1)]))
  }

  /** `leaveRoom`: a participant who is not the owner leaves; the owner is
      refused, with a different exception depending on whether other rows
      remain. */
  function LeaveRoom(s: Store, email: Email, roomId: RoomId): (r: Result<Store, Failure>)
    ensures email !in s.users ==> r == Err(UnAuthorized)
    ensures email in s.users && roomId !in s.rooms ==> r == Err(NotFound(ErrorCodes.NotFoundRoomException))
    ensures email in s.users && roomId in s.rooms ==>
      var uid := s.users[email];
      var room := s.rooms[roomId];
      var n := |RowsOf(s.participates, roomId)|;
      && (!InRoom(s, roomId, uid) ==> r == Err(AlreadyNotInRoom))
      && (InRoom(s, roomId, uid) && uid == room.ownerId && n > 1 ==> r == Err(OwnerCanNotLeave))
      && (InRoom(s, roomId, uid) && uid == room.ownerId && n == 1 ==> r == Err(AlertLeaveRoom))
      && (InRoom(s, roomId, uid) && uid != room.ownerId ==> r.Ok?)
    ensures r.Ok? ==>
      && email in s.users && roomId in s.rooms
      && var uid := s.users[email];
      && InRoom(s, roomId, uid) && uid != s.rooms[roomId].ownerId
      && r.value.participates == s.participates - {Participate(roomId, uid)}
      && roomId in r.value.rooms
      && OnlyCountChanged(s.rooms[roomId], r.value.rooms[roomId], -1)
      && r.value.rooms == s.rooms[roomId := r.value.rooms[roomId]]
      && r.value.byCode == s.byCode && r.value.nextRoomId == s.nextRoomId
      && RoomTablesOnly(s, r.value)
  {
    var uid :- FindUserByEmail(s.users, email);
    var room :- FindRoomByRoomId(s.rooms, roomId);
    if !InRoom(s, roomId, uid) then Err(AlreadyNotInRoom)
    else
      var n := |RowsOf(s.participates, roomId)|;
      ParticipantCounted(s, roomId, uid);
      if uid == room.ownerId && n > 1 then Err(OwnerCanNotLeave)
      else if uid == room.ownerId && n == 1 then Err(AlertLeaveRoom)
      else
        Ok(s.(participates := s.participates - {Participate(roomId, uid)},
              rooms := s.rooms[roomId := room.(participantsCount := room.participantsCount - 1)]))
  }

  /** `disableRoom`: only the owner, alone and still participating, may switch
      the room's status off. */
  function DisableRoom(s: Store, email: Email, roomId: RoomId): (r: Result<Store, Failure>)
    ensures email !in s.users ==> r == Err(UnAuthorized)
    ensures email in s.users && roomId !in s.rooms ==> r == Err(NotFound(ErrorCodes.NotFoundRoomException))
    ensures email in s.users && roomId in s.rooms ==>
      var uid := s.users[email];
      var room := s.rooms[roomId];
      var n := |RowsOf(s.participates, roomId)|;
      && (uid != room.ownerId ==> r == Err(NotOwner))
      && (uid == room.ownerId && n > 1 ==> r == Err(NotAlone))
      && (uid == room.ownerId && n <= 1 && !InRoom(s, roomId, uid) ==> r == Err(AlreadyNotInRoom))
      && (uid == room.ownerId && n <= 1 && InRoom(s, roomId, uid) ==> r.Ok?)
    ensures r.Ok? ==>
      && email in s.users && roomId in s.rooms
      && s.users[email] == s.rooms[roomId].ownerId
      && RowsOf(s.participates, roomId) == {Participate(roomId, s.users[email])}
      && r.value.rooms == s.rooms[roomId := s.rooms[roomId].(status := false)]
      && r.value.participates == s.participates
      && r.value.byCode == s.byCode && r.value.nextRoomId == s.nextRoomId
      && RoomTablesOnly(s, r.value)
  {
    var uid :- FindUserByEmail(s.users, email);
    var room :- FindRoomByRoomId(s.rooms, roomId);
    if uid != room.ownerId then Err(NotOwner)
    else if |RowsOf(s.participates, roomId)| > 1 then Err(NotAlone)
    else if !InRoom(s, roomId, uid) then Err(AlreadyNotInRoom)
    else
      SoleRow(s, roomId, uid);
      Ok(s.(rooms := s.rooms[roomId := room.(status := false)]))
  }

  /** A participant of a room with at most one row is its only row. */
  lemma SoleRow(s: Store, roomId: RoomId, uid: UserId)
    requires InRoom(s, roomId, uid)
    requires |RowsOf(s.participates, roomId)| <= 1
    ensures RowsOf(s.participates, roomId) == {Participate(roomId, uid)}
  {
    var rows := RowsOf(s.participates, roomId);
    assert Participate(roomId, uid) in rows;
    var others := rows - {Participate(roomId, uid)};
    assert rows == others + {Participate(roomId, uid)};
    assert |others| == 0;
  }

  /** `deleteUserForce`: the owner, while participating, removes a participant.
      Nothing stops the owner from naming themself as the target. */
  function DeleteUserForce(s: Store, email: Email, targetId: UserId, roomId: RoomId): (r: Result<Store, Failure>)
    ensures email !in s.users ==> r == Err(UnAuthorized)
    ensures email in s.users && roomId !in s.rooms ==> r == Err(NotFound(ErrorCodes.NotFoundRoomException))
    ensures email in s.users && roomId in s.rooms ==>
      var uid := s.users[email];
      var room := s.rooms[roomId];
      && (uid != room.ownerId ==> r == Err(NotOwner))
      && (uid == room.ownerId && !InRoom(s, roomId, uid) ==> r == Err(AlreadyNotInRoom))
      && (uid == room.ownerId && InRoom(s, roomId, uid) && !UserExists(s, targetId) ==> r == Err(NoSuchElement))
      && (uid == room.ownerId && InRoom(s, roomId, uid) && UserExists(s, targetId) && !InRoom(s, roomId, targetId) ==>
              r == Err(UserAlreadyNotInRoom))
      && (uid == room.ownerId && InRoom(s, roomId, uid) && UserExists(s, targetId) && InRoom(s, roomId, targetId) ==>
              r.Ok?)
    ensures r.Ok? ==>
      && email in s.users && roomId in s.rooms
      && s.users[email] == s.rooms[roomId].ownerId
      && InRoom(s, roomId, targetId)
      && r.value.participates == s.participates - {Participate(roomId, targetId)}
      && roomId in r.value.rooms
      && OnlyCountChanged(s.rooms[roomId], r.value.rooms[roomId], -1)
      && r.value.rooms == s.rooms[roomId := r.value.rooms[roomId]]
      && r.value.byCode == s.byCode && r.value.nextRoomId == s.nextRoomId
      && RoomTablesOnly(s, r.value)
  {
    var uid :- FindUserByEmail(s.users, email);
    var room :- FindRoomByRoomId(s.rooms, roomId);
    if uid != room.ownerId then Err(NotOwner)
    else if !InRoom(s, roomId, uid) then Err(AlreadyNotInRoom)
    else if !UserExists(s, targetId) then Err(NoSuchElement)
    else if !InRoom(s, roomId, targetId) then Err(UserAlreadyNotInRoom)
    else
      Ok(s.(participates := s.participates - {Participate(roomId, targetId)},
            rooms := s.rooms[roomId := room.(participantsCount := room.participantsCount - 1)]))
  }

  /** `modifyRoomPassword`: the participating owner who knows the current
      password replaces it. */
  function ModifyRoomPassword(s: Store, enc: PasswordEncoder, email: Email, roomId: RoomId,
                              beforePassword: string, afterPassword: string): (r: Result<Store, Failure>)
    ensures email !in s.users ==> r == Err(UnAuthorized)
    ensures email in s.users && roomId !in s.rooms ==> r == Err(NotFound(ErrorCodes.NotFoundRoomException))
    ensures email in s.users && roomId in s.rooms ==>
      var uid := s.users[email];
      var room := s.rooms[roomId];
      && (uid != room.ownerId ==> r == Err(NotOwner))
      && (uid == room.ownerId && !InRoom(s, roomId, uid) ==> r == Err(NotInRoom))
      && (uid == room.ownerId && InRoom(s, roomId, uid) && !enc.matches(beforePassword, room.password) ==>
              r == Err(InvalidPassword))
      && (uid == room.ownerId && InRoom(s, roomId, uid) && enc.matches(beforePassword, room.password) ==>
              r.Ok?)
    ensures r.Ok? ==>
      && email in s.users && roomId in s.rooms
      && r.value.rooms == s.rooms[roomId := s.rooms[roomId].(password := enc.encode(afterPassword))]
      && r.value.participates == s.participates
      && r.value.byCode == s.byCode && r.value.nextRoomId == s.nextRoomId
      && RoomTablesOnly(s, r.value)
  {
    var uid :- FindUserByEmail(s.users, email);
    var room :- FindRoomByRoomId(s.rooms, roomId);
    if uid != room.ownerId then Err(NotOwner)
    else if !InRoom(s, roomId, uid) then Err(NotInRoom)
    else if !enc.matches(beforePassword, room.password) then Err(InvalidPassword)
    else Ok(s.(rooms := s.rooms[roomId := room.(password := enc.encode(afterPassword))]))
  }

  /** `delegateOwner`: the participating owner hands the room to another
      participant and stays in the room. */
  function DelegateOwner(s: Store, email: Email, roomId: RoomId, delegatedId: UserId): (r: Result<Store, Failure>)
    ensures email !in s.users ==> r == Err(UnAuthorized)
    ensures email in s.users && roomId !in s.rooms ==> r == Err(NotFound(ErrorCodes.NotFoundRoomException))
    ensures email in s.users && roomId in s.rooms ==>
      var uid := s.users[email];
      var room := s.rooms[roomId];
      && (uid != room.ownerId ==> r == Err(NotOwner))
      && (uid == room.ownerId && !InRoom(s, roomId, uid) ==> r == Err(AlreadyNotInRoom))
      && (uid == room.ownerId && InRoom(s, roomId, uid) && !UserExists(s, delegatedId) ==> r == Err(NoSuchElement))
      && (uid == room.ownerId && InRoom(s, roomId, uid) && UserExists(s, delegatedId) && !InRoom(s, roomId, delegatedId) ==>
              r == Err(UserAlreadyNotInRoom))
      && (uid == room.ownerId && InRoom(s, roomId, uid) && UserExists(s, delegatedId) && InRoom(s, roomId, delegatedId) ==>
              r.Ok?)
    ensures r.Ok? ==>
      && email in s.users && roomId in s.rooms
      && InRoom(r.value, roomId, s.users[email])
      && InRoom(r.value, roomId, delegatedId)
      && r.value.rooms == s.rooms[roomId := s.rooms[roomId].(ownerId := delegatedId)]
      && r.value.participates == s.participates
      && r.value.byCode == s.byCode && r.value.nextRoomId == s.nextRoomId
      && RoomTablesOnly(s, r.value)
  {
    var uid :- FindUserByEmail(s.users, email);
    var room :- FindRoomByRoomId(s.rooms, roomId);
    if uid != room.ownerId then Err(NotOwner)
    else if !InRoom(s, roomId, uid) then Err(AlreadyNotInRoom)
    else if !UserExists(s, delegatedId) then Err(NoSuchElement)
    else if !InRoom(s, roomId, delegatedId) then Err(UserAlreadyNotInRoom)
    else Ok(s.(rooms := s.rooms[roomId := room.(ownerId := delegatedId)]))
  }
}
