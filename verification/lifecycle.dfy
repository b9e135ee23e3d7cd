/** Properties of the photory services taken together: every operation keeps
    the store invariant (in particular `participantsCount` equal to the number
    of participation rows), status only moves from active to disabled, join
    codes stay unique, and the owner stays a participant except through
    `deleteUserForce`. */
module Lifecycle {
  import opened Outcomes
  import opened Passwords
  import opened RoomCodes
  import opened PhotoryStore
  import opened RoomService
  import opened FeedService

  // ---------------------------------------------------------------------------
  // Each operation keeps the store invariant

  lemma CreateRoomKeepsValid(s: Store, enc: PasswordEncoder, email: Email, title: string, password: string,
                             attempts: seq<seq<Draw>>)
    requires Valid(s) && ValidAttempts(attempts)
    requires CreateRoom(s, enc, email, title, password, attempts).Ok?
    ensures var t := CreateRoom(s, enc, email, title, password, attempts).value;
            && Valid(t)
            && s.nextRoomId !in s.rooms
            && RowsOf(t.participates, s.nextRoomId) == {Participate(s.nextRoomId, s.users[email])}
  {
    var t := CreateRoom(s, enc, email, title, password, attempts).value;
    AddRoomKeepsValid(s, t, t.rooms[s.nextRoomId], s.users[email]);
  }

  /** Saving a room with a count of one and an unused code under the next id,
      together with its owner's row, keeps the invariant; that row is the new
      room's only row. */
  lemma AddRoomKeepsValid(s: Store, t: Store, room: Room, uid: UserId)
    requires Valid(s) && RoomTablesOnly(s, t)
    requires room.participantsCount == 1 && room.code !in Codes(s.rooms)
    requires t.rooms == s.rooms[s.nextRoomId := room]
    requires t.byCode == s.byCode[room.code := s.nextRoomId]
    requires t.participates == s.participates + {Participate(s.nextRoomId, uid)}
    requires t.nextRoomId == s.nextRoomId + 1
    ensures Valid(t)
    ensures s.nextRoomId !in s.rooms
    ensures RowsOf(t.participates, s.nextRoomId) == {Participate(s.nextRoomId, uid)}
  {
    var id := s.nextRoomId;
    assert id !in s.rooms;
    NewRoomCounts(s, t, id, room, uid);
    CreateRoomIndexesCode(s, t, id, room);
    assert RowsInRooms(t) && IdsBelowNext(t) && ImagesInFeeds(t);
  }

  /** A room saved under a free id with a count of one, together with its
      owner's row, has that row alone, and every count still matches. */
  lemma NewRoomCounts(s: Store, t: Store, id: RoomId, room: Room, uid: UserId)
    requires RowsInRooms(s) && CountsMatchRows(s) && id !in s.rooms
    requires room.participantsCount == 1
    requires t.rooms == s.rooms[id := room]
    requires t.participates == s.participates + {Participate(id, uid)}
    ensures CountsMatchRows(t)
    ensures RowsOf(t.participates, id) == {Participate(id, uid)}
  {
    var p := Participate(id, uid);
    assert p !in s.participates;
    assert RowsOf(s.participates, id) == {};
    RowsAfterInsert(s.participates, p, id);
    forall rid | rid in t.rooms
      ensures t.rooms[rid].participantsCount == |RowsOf(t.participates, rid)| <= Capacity
    {
      RowsAfterInsert(s.participates, p, rid);
    }
  }

  /** Adding a room under a fresh id and a fresh code keeps the code index. */
  lemma CreateRoomIndexesCode(s: Store, t: Store, id: RoomId, room: Room)
    requires CodeIndexed(s) && id !in s.rooms && room.code !in Codes(s.rooms)
    requires t.rooms == s.rooms[id := room] && t.byCode == s.byCode[room.code := id]
    ensures CodeIndexed(t)
  {
    assert room.code !in s.byCode;
    forall rid | rid in t.rooms
      ensures t.rooms[rid].code in t.byCode && t.byCode[t.rooms[rid].code] == rid
    {
      if rid != id {
        assert t.rooms[rid].code in Codes(s.rooms);
      }
    }
  }

  /** Shared frame of the room operations: the code index, the feed tables
      and the id counters are untouched. */
  predicate RoomOpFrame(s: Store, t: Store)
  {
    RoomTablesOnly(s, t) && t.byCode == s.byCode && t.nextRoomId == s.nextRoomId
  }

  /** Adding one row to a stored room while raising its count by one, up to
      the capacity, keeps the invariant. */
  lemma AddRowKeepsValid(s: Store, t: Store, p: Participate)
    requires Valid(s) && RoomOpFrame(s, t)
    requires p !in s.participates && p.roomId in s.rooms && p.roomId in t.rooms
    requires t.participates == s.participates + {p}
    requires t.rooms == s.rooms[p.roomId := t.rooms[p.roomId]]
    requires OnlyCountChanged(s.rooms[p.roomId], t.rooms[p.roomId], 1)
    requires t.rooms[p.roomId].participantsCount <= Capacity
    ensures Valid(t)
  {
    forall rid | rid in t.rooms
      ensures t.rooms[rid].participantsCount == |RowsOf(t.participates, rid)| <= Capacity
    {
      RowsAfterInsert(s.participates, p, rid);
    }
  }

  /** Removing one stored row while lowering its room's count by one keeps
      the invariant. */
  lemma RemoveRowKeepsValid(s: Store, t: Store, p: Participate)
    requires Valid(s) && RoomOpFrame(s, t)
    requires p in s.participates && p.roomId in t.rooms
    requires t.participates == s.participates - {p}
    requires t.rooms == s.rooms[p.roomId := t.rooms[p.roomId]]
    requires OnlyCountChanged(s.rooms[p.roomId], t.rooms[p.roomId], -1)
    ensures Valid(t)
  {
    forall rid | rid in t.rooms
      ensures t.rooms[rid].participantsCount == |RowsOf(t.participates, rid)| <= Capacity
    {
      RowsAfterRemove(s.participates, p, rid);
    }
  }

  /** Rewriting a stored room without touching its code or count, and
      without touching any row, keeps the invariant. */
  lemma RoomUpdateKeepsValid(s: Store, t: Store, id: RoomId, room: Room)
    requires Valid(s) && RoomOpFrame(s, t)
    requires id in s.rooms && t.rooms == s.rooms[id := room] && t.participates == s.participates
    requires room.code == s.rooms[id].code && room.participantsCount == s.rooms[id].participantsCount
    ensures Valid(t)
  {
  }

  lemma JoinRoomKeepsValid(s: Store, enc: PasswordEncoder, email: Email, code: string, password: string)
    requires Valid(s)
    requires JoinRoom(s, enc, email, code, password).Ok?
    ensures Valid(JoinRoom(s, enc, email, code, password).value)
  {
    var t := JoinRoom(s, enc, email, code, password).value;
    var id := FindByCode(s, code).value;
    AddRowKeepsValid(s, t, Participate(id, s.users[email]));
  }

  lemma LeaveRoomKeepsValid(s: Store, email: Email, roomId: RoomId)
    requires Valid(s)
    requires LeaveRoom(s, email, roomId).Ok?
    ensures Valid(LeaveRoom(s, email, roomId).value)
  {
    var t := LeaveRoom(s, email, roomId).value;
    RemoveRowKeepsValid(s, t, Participate(roomId, s.users[email]));
  }

  lemma DisableRoomKeepsValid(s: Store, email: Email, roomId: RoomId)
    requires Valid(s)
    requires DisableRoom(s, email, roomId).Ok?
    ensures Valid(DisableRoom(s, email, roomId).value)
  {
    var t := DisableRoom(s, email, roomId).value;
    RoomUpdateKeepsValid(s, t, roomId, t.rooms[roomId]);
  }

  lemma DeleteUserForceKeepsValid(s: Store, email: Email, targetId: UserId, roomId: RoomId)
    requires Valid(s)
    requires DeleteUserForce(s, email, targetId, roomId).Ok?
    ensures Valid(DeleteUserForce(s, email, targetId, roomId).value)
  {
    var t := DeleteUserForce(s, email, targetId, roomId).value;
    RemoveRowKeepsValid(s, t, Participate(roomId, targetId));
  }

  lemma ModifyRoomPasswordKeepsValid(s: Store, enc: PasswordEncoder, email: Email, roomId: RoomId,
                                     beforePassword: string, afterPassword: string)
    requires Valid(s)
    requires ModifyRoomPassword(s, enc, email, roomId, beforePassword, afterPassword).Ok?
    ensures Valid(ModifyRoomPassword(s, enc, email, roomId, beforePassword, afterPassword).value)
  {
    var t := ModifyRoomPassword(s, enc, email, roomId, beforePassword, afterPassword).value;
    RoomUpdateKeepsValid(s, t, roomId, t.rooms[roomId]);
  }

  lemma DelegateOwnerKeepsValid(s: Store, email: Email, roomId: RoomId, delegatedId: UserId)
    requires Valid(s)
    requires DelegateOwner(s, email, roomId, delegatedId).Ok?
    ensures Valid(DelegateOwner(s, email, roomId, delegatedId).value)
  {
    var t := DelegateOwner(s, email, roomId, delegatedId).value;
    RoomUpdateKeepsValid(s, t, roomId, t.rooms[roomId]);
  }

  /** A new feed keeps the invariant, reads back its uploads in order, and
      leaves every other feed's images as they were. */
  lemma CreateFeedKeepsValid(s: Store, email: Email, roomId: RoomId, title: string, content: string,
                             uploadedUrls: seq<string>, other: FeedId)
    requires Valid(s)
    requires CreateFeed(s, email, roomId, title, content, uploadedUrls).Ok?
    ensures var t := CreateFeed(s, email, roomId, title, content, uploadedUrls).value;
            && Valid(t)
            && s.nextFeedId !in s.feeds
            && ImagesOf(t.feedImages, s.nextFeedId) == uploadedUrls
            && (other != s.nextFeedId ==> ImagesOf(t.feedImages, other) == ImagesOf(s.feedImages, other))
  {
    var t := CreateFeed(s, email, roomId, title, content, uploadedUrls).value;
    var id := s.nextFeedId;
    assert id !in s.feeds;
    ImagesAfterCreate(s.feedImages, id, uploadedUrls, other);
    ImagesStayInFeeds(s, t, id, uploadedUrls);
    assert RowsInRooms(t) && IdsBelowNext(t) && CountsMatchRows(t) && CodeIndexed(t);
  }

  /** Appending a fresh feed's rows gives it exactly its uploads and leaves
      every other feed its images. */
  lemma ImagesAfterCreate(images: seq<FeedImage>, id: FeedId, urls: seq<string>, other: FeedId)
    requires forall i :: 0 <= i < |images| ==> images[i].feedId != id
    ensures ImagesOf(images + ImageRows(id, urls), id) == urls
    ensures other != id ==> ImagesOf(images + ImageRows(id, urls), other) == ImagesOf(images, other)
  {
    ImagesOfAppend(images, ImageRows(id, urls), id);
    ImagesOfAppend(images, ImageRows(id, urls), other);
    ImagesOfAbsent(images, id);
    ImagesOfRows(id, urls, other);
  }

  /** Image rows appended for a newly stored feed point at a stored feed. */
  lemma ImagesStayInFeeds(s: Store, t: Store, id: FeedId, urls: seq<string>)
    requires ImagesInFeeds(s) && id in t.feeds && s.feeds.Keys <= t.feeds.Keys
    requires t.feedImages == s.feedImages + ImageRows(id, urls)
    ensures ImagesInFeeds(t)
  {
    forall i | 0 <= i < |t.feedImages|
      ensures t.feedImages[i].feedId in t.feeds
    {
      if i >= |s.feedImages| {
        assert t.feedImages[i] == ImageRows(id, urls)[i - |s.feedImages|];
      }
    }
  }

  lemma ModifyFeedKeepsValid(s: Store, email: Email, feedId: FeedId, title: string, content: string)
    requires Valid(s)
    requires ModifyFeed(s, email, feedId, title, content).Ok?
    ensures Valid(ModifyFeed(s, email, feedId, title, content).value)
  {
  }

  /** Deleting a feed keeps the invariant and leaves the feed no image, and
      every other feed its images. */
  lemma DeleteFeedKeepsValid(s: Store, email: Email, feedId: FeedId, other: FeedId)
    requires Valid(s)
    requires DeleteFeed(s, email, feedId).Ok?
    ensures var t := DeleteFeed(s, email, feedId).value.store;
            && Valid(t)
            && feedId !in t.feeds
            && ImagesOf(t.feedImages, feedId) == []
            && (other != feedId ==> ImagesOf(t.feedImages, other) == ImagesOf(s.feedImages, other))
  {
    ImagesAfterDelete(s.feedImages, feedId, other);
  }

  // ---------------------------------------------------------------------------
  // Any request, any sequence of requests

  datatype Command =
    | CreateRoomCmd(email: Email, title: string, password: string, attempts: seq<seq<Draw>>)
    | JoinRoomCmd(email: Email, code: string, password: string)
    | LeaveRoomCmd(email: Email, roomId: RoomId)
    | DisableRoomCmd(email: Email, roomId: RoomId)
    | DeleteUserForceCmd(email: Email, targetId: UserId, roomId: RoomId)
    | ModifyRoomPasswordCmd(email: Email, roomId: RoomId, beforePassword: string, afterPassword: string)
    | DelegateOwnerCmd(email: Email, roomId: RoomId, delegatedId: UserId)
    | CreateFeedCmd(email: Email, roomId: RoomId, title: string, content: string, uploadedUrls: seq<string>)
    | ModifyFeedCmd(email: Email, feedId: FeedId, title: string, content: string)
    | DeleteFeedCmd(email: Email, feedId: FeedId)

  predicate WellFormedCommand(c: Command)
  {
    c.CreateRoomCmd? ==> ValidAttempts(c.attempts)
  }

  predicate WellFormedCommands(cs: seq<Command>)
  {
    forall i :: 0 <= i < |cs| ==> WellFormedCommand(cs[i])
  }

  /** The store after one request, or the exception it throws. */
  function Apply(s: Store, enc: PasswordEncoder, c: Command): Result<Store, Failure>
    requires WellFormedCommand(c)
  {
    match c
    case CreateRoomCmd(e, t, p, a) => CreateRoom(s, enc, e, t, p, a)
    case JoinRoomCmd(e, code, p) => JoinRoom(s, enc, e, code, p)
    case LeaveRoomCmd(e, r) => LeaveRoom(s, e, r)
    case DisableRoomCmd(e, r) => DisableRoom(s, e, r)
    case DeleteUserForceCmd(e, u, r) => DeleteUserForce(s, e, u, r)
    case ModifyRoomPasswordCmd(e, r, b, a) => ModifyRoomPassword(s, enc, e, r, b, a)
    case DelegateOwnerCmd(e, r, u) => DelegateOwner(s, e, r, u)
    case CreateFeedCmd(e, r, t, ct, urls) => CreateFeed(s, e, r, t, ct, urls)
    case ModifyFeedCmd(e, f, t, ct) => ModifyFeed(s, e, f, t, ct)
    case DeleteFeedCmd(e, f) =>
      match DeleteFeed(s, e, f)
      case Ok(d) => Ok(d.store)
      case Err(x) => Err(x)
  }

  /** The store after a sequence of requests; a request that throws leaves
      the store as it was. */
  function Run(s: Store, enc: PasswordEncoder, cs: seq<Command>): Store
    requires WellFormedCommands(cs)
    decreases |cs|
  {
    if |cs| == 0 then s
    else
      var r := Apply(s, enc, cs[0]);
      Run(if r.Ok? then r.value else s, enc, cs[1..])
  }

  predicate IsFeedCommand(c: Command)
  {
    c.CreateFeedCmd? || c.ModifyFeedCmd? || c.DeleteFeedCmd?
  }

  lemma ApplyKeepsValid(s: Store, enc: PasswordEncoder, c: Command)
    requires Valid(s) && WellFormedCommand(c)
    requires Apply(s, enc, c).Ok?
    ensures Valid(Apply(s, enc, c).value)
  {
    if IsFeedCommand(c) {
      FeedCommandKeepsValid(s, enc, c);
    } else {
      RoomCommandKeepsValid(s, enc, c);
    }
  }

  lemma RoomCommandKeepsValid(s: Store, enc: PasswordEncoder, c: Command)
    requires Valid(s) && WellFormedCommand(c) && !IsFeedCommand(c)
    requires Apply(s, enc, c).Ok?
    ensures Valid(Apply(s, enc, c).value)
  {
    match c
    case CreateRoomCmd(e, t, p, a) => CreateRoomKeepsValid(s, enc, e, t, p, a);
    case JoinRoomCmd(e, code, p) => JoinRoomKeepsValid(s, enc, e, code, p);
    case LeaveRoomCmd(e, r) => LeaveRoomKeepsValid(s, e, r);
    case DisableRoomCmd(e, r) => DisableRoomKeepsValid(s, e, r);
    case DeleteUserForceCmd(e, u, r) => DeleteUserForceKeepsValid(s, e, u, r);
    case ModifyRoomPasswordCmd(e, r, b, a) => ModifyRoomPasswordKeepsValid(s, enc, e, r, b, a);
    case DelegateOwnerCmd(e, r, u) => DelegateOwnerKeepsValid(s, e, r, u);
  }

  lemma FeedCommandKeepsValid(s: Store, enc: PasswordEncoder, c: Command)
    requires Valid(s) && WellFormedCommand(c) && IsFeedCommand(c)
    requires Apply(s, enc, c).Ok?
    ensures Valid(Apply(s, enc, c).value)
  {
    match c
    case CreateFeedCmd(e, r, t, ct, urls) => CreateFeedKeepsValid(s, e, r, t, ct, urls, 0);
    case ModifyFeedCmd(e, f, t, ct) => ModifyFeedKeepsValid(s, e, f, t, ct);
    case DeleteFeedCmd(e, f) => DeleteFeedKeepsValid(s, e, f, 0);
  }

  /** Rooms are never removed, never change their code, and a disabled room
      never becomes active again. */
  predicate RoomsEvolve(s: Store, t: Store)
  {
    && s.rooms.Keys <= t.rooms.Keys
    && (forall id | id in s.rooms :: t.rooms[id].code == s.rooms[id].code)
    && (forall id | id in s.rooms && !s.rooms[id].status :: !t.rooms[id].status)
  }

  /** Rewriting one existing room without touching its code, and without
      reactivating it, is an evolution of the rooms. */
  lemma UpdateEvolves(s: Store, t: Store, id: RoomId, room: Room)
    requires id in s.rooms && t.rooms == s.rooms[id := room]
    requires room.code == s.rooms[id].code && (!s.rooms[id].status ==> !room.status)
    ensures RoomsEvolve(s, t)
  {
  }

  lemma ApplyEvolvesRooms(s: Store, enc: PasswordEncoder, c: Command)
    requires IdsBelowNext(s) && WellFormedCommand(c)
    requires Apply(s, enc, c).Ok?
    ensures RoomsEvolve(s, Apply(s, enc, c).value)
  {
    var t := Apply(s, enc, c).value;
    match c
    case CreateRoomCmd(e, ti, p, a) =>
      assert s.nextRoomId !in s.rooms;
    case JoinRoomCmd(e, code, p) =>
      var id := FindByCode(s, code).value;
      UpdateEvolves(s, t, id, t.rooms[id]);
    case LeaveRoomCmd(e, r) =>
      UpdateEvolves(s, t, r, t.rooms[r]);
    case DisableRoomCmd(e, r) =>
      UpdateEvolves(s, t, r, t.rooms[r]);
    case DeleteUserForceCmd(e, u, r) =>
      UpdateEvolves(s, t, r, t.rooms[r]);
    case ModifyRoomPasswordCmd(e, r, b, a) =>
      UpdateEvolves(s, t, r, t.rooms[r]);
    case DelegateOwnerCmd(e, r, u) =>
      UpdateEvolves(s, t, r, t.rooms[r]);
    case CreateFeedCmd(e, r, ti, ct, urls) =>
      assert t.rooms == s.rooms;
    case ModifyFeedCmd(e, f, ti, ct) =>
      assert t.rooms == s.rooms;
    case DeleteFeedCmd(e, f) =>
      assert t.rooms == s.rooms;
  }

  lemma RoomsEvolveTransitive(a: Store, b: Store, c: Store)
    requires RoomsEvolve(a, b) && RoomsEvolve(b, c)
    ensures RoomsEvolve(a, c)
  {
  }

  /** Along any sequence of requests the invariant holds, disabled rooms stay
      disabled, rooms and their codes persist, and so codes are never reused. */
  lemma {:induction false} RunKeepsValid(s: Store, enc: PasswordEncoder, cs: seq<Command>)
    requires Valid(s) && WellFormedCommands(cs)
    ensures Valid(Run(s, enc, cs))
    ensures RoomsEvolve(s, Run(s, enc, cs))
    decreases |cs|
  {
    if |cs| > 0 {
      var r := Apply(s, enc, cs[0]);
      var next := if r.Ok? then r.value else s;
      if r.Ok? {
        ApplyKeepsValid(s, enc, cs[0]);
        ApplyEvolvesRooms(s, enc, cs[0]);
      }
      assert WellFormedCommands(cs[1..]) by {
        forall i | 0 <= i < |cs[1..]| ensures WellFormedCommand(cs[1..][i]) {
          assert cs[1..][i] == cs[i + 1];
        }
      }
      assert Run(s, enc, cs) == Run(next, enc, cs[1..]);
      RunKeepsValid(next, enc, cs[1..]);
      RoomsEvolveTransitive(s, next, Run(next, enc, cs[1..]));
    }
  }

  // ---------------------------------------------------------------------------
  // Status and ownership

  /** Disabling an already disabled room again succeeds and changes nothing. */
  lemma DisableRoomIdempotent(s: Store, email: Email, roomId: RoomId)
    requires DisableRoom(s, email, roomId).Ok?
    ensures var t := DisableRoom(s, email, roomId).value;
            && !t.rooms[roomId].status
            && DisableRoom(t, email, roomId) == Ok(t)
  {
    var t := DisableRoom(s, email, roomId).value;
    assert t.rooms[roomId := t.rooms[roomId].(status := false)] == t.rooms;
  }

  /** `joinRoom` treats a disabled room exactly like an active one. */
  lemma JoinIgnoresStatus(s: Store, enc: PasswordEncoder, email: Email, code: string, password: string, b: bool)
    requires FindByCode(s, code).Some?
    ensures var id := FindByCode(s, code).value;
            var s' := s.(rooms := s.rooms[id := s.rooms[id].(status := b)]);
            JoinRoom(s', enc, email, code, password).Ok? == JoinRoom(s, enc, email, code, password).Ok?
  {
    var id := FindByCode(s, code).value;
    var s' := s.(rooms := s.rooms[id := s.rooms[id].(status := b)]);
    assert FindByCode(s', code) == FindByCode(s, code);
  }

  /** Every request but `deleteUserForce` keeps each active room's owner a
      participant. */
  lemma ApplyKeepsOwnersParticipating(s: Store, enc: PasswordEncoder, c: Command)
    requires IdsBelowNext(s) && OwnersParticipate(s) && WellFormedCommand(c)
    requires !c.DeleteUserForceCmd?
    requires Apply(s, enc, c).Ok?
    ensures OwnersParticipate(Apply(s, enc, c).value)
  {
    var t := Apply(s, enc, c).value;
    match c
    case CreateRoomCmd(e, ti, p, a) =>
      assert s.nextRoomId !in s.rooms;
    case JoinRoomCmd(e, code, p) =>
    case LeaveRoomCmd(e, r) =>
    case DisableRoomCmd(e, r) =>
    case ModifyRoomPasswordCmd(e, r, b, a) =>
    case DelegateOwnerCmd(e, r, u) =>
    case CreateFeedCmd(e, r, ti, ct, urls) =>
    case ModifyFeedCmd(e, f, ti, ct) =>
    case DeleteFeedCmd(e, f) =>
  }

  /** The owner may name themself in `deleteUserForce`: the room stays active
      with an owner who no longer takes part in it. */
  lemma OwnerCanForceRemoveSelf(s: Store, email: Email, roomId: RoomId)
    requires email in s.users && roomId in s.rooms
    requires s.rooms[roomId].ownerId == s.users[email] && s.rooms[roomId].status
    requires InRoom(s, roomId, s.users[email])
    ensures var r := DeleteUserForce(s, email, s.users[email], roomId);
            && r.Ok?
            && r.value.rooms[roomId].status
            && !InRoom(r.value, roomId, r.value.rooms[roomId].ownerId)
            && !OwnersParticipate(r.value)
  {
    assert UserExists(s, s.users[email]);
  }

  // ---------------------------------------------------------------------------
  // Capacity

  /** A room at capacity admits nobody: whoever asks with the right password is
      told the room is full, whoever asks with a wrong one that the password is
      wrong. */
  lemma FullRoomRejectsJoin(s: Store, enc: PasswordEncoder, email: Email, code: string, password: string)
    requires Valid(s) && email in s.users
    requires FindByCode(s, code).Some? && s.rooms[FindByCode(s, code).value].participantsCount == Capacity
    ensures JoinRoom(s, enc, email, code, password) ==
              if enc.matches(password, s.rooms[FindByCode(s, code).value].password)
              then Err(ExceedRoomCapacity) else Err(InvalidPassword)
  {
  }

  // ---------------------------------------------------------------------------
  // A room's whole life

  /** The owner and one guest are the room's two participants. */
  ghost predicate OwnerAndGuest(s: Store, id: RoomId, owner: Email, guest: Email)
  {
    && owner in s.users && guest in s.users && id in s.rooms
    && s.rooms[id].ownerId == s.users[owner] && s.users[owner] != s.users[guest]
    && RowsOf(s.participates, id) == {Participate(id, s.users[owner]), Participate(id, s.users[guest])}
  }

  /** The owner is the room's one participant. */
  ghost predicate OwnerAlone(s: Store, id: RoomId, owner: Email)
  {
    && owner in s.users && id in s.rooms
    && s.rooms[id].ownerId == s.users[owner]
    && RowsOf(s.participates, id) == {Participate(id, s.users[owner])}
  }

  /** Alice creates a room and Bob joins it with its password. */
  lemma CreateThenJoin(s: Store, enc: PasswordEncoder, alice: Email, bob: Email, title: string,
                       password: string, attempts: seq<seq<Draw>>)
    requires Valid(s) && Sound(enc) && ValidAttempts(attempts)
    requires alice in s.users && bob in s.users && s.users[alice] != s.users[bob]
    requires GenerateCode(Codes(s.rooms), attempts).Some?
    ensures var id := s.nextRoomId;
            var s1 := CreateRoom(s, enc, alice, title, password, attempts);
            && s1.Ok?
            && var s2 := JoinRoom(s1.value, enc, bob, s1.value.rooms[id].code, password);
            && s2.Ok? && Valid(s2.value)
            && s2.value.rooms[id].participantsCount == 2
            && OwnerAndGuest(s2.value, id, alice, bob)
  {
    var id := s.nextRoomId;
    var s1 := CreateRoom(s, enc, alice, title, password, attempts).value;
    CreateRoomKeepsValid(s, enc, alice, title, password, attempts);
    assert OwnerAlone(s1, id, alice);
    GuestJoins(s1, enc, id, alice, bob, password);
  }

  /** A second user who knows the password joins the room of a lone owner. */
  lemma GuestJoins(s: Store, enc: PasswordEncoder, id: RoomId, owner: Email, guest: Email, password: string)
    requires Valid(s) && OwnerAlone(s, id, owner)
    requires guest in s.users && s.users[guest] != s.users[owner]
    requires enc.matches(password, s.rooms[id].password)
    ensures var t := JoinRoom(s, enc, guest, s.rooms[id].code, password);
            && t.Ok? && Valid(t.value)
            && t.value.rooms[id].participantsCount == 2
            && OwnerAndGuest(t.value, id, owner, guest)
  {
    var a := s.users[owner];
    var b := s.users[guest];
    var code := s.rooms[id].code;
    FindByCodeExact(s, code);
    assert code in Codes(s.rooms);
    assert FindByCode(s, code) == Some(id);
    assert !InRoom(s, id, b) by {
      assert Participate(id, b) !in RowsOf(s.participates, id);
    }
    var t := JoinRoom(s, enc, guest, code, password).value;
    JoinRoomKeepsValid(s, enc, guest, code, password);
    RowsAfterInsert(s.participates, Participate(id, b), id);
  }

  /** With a guest present the owner may not leave; the guest may, leaving
      the owner alone. */
  lemma GuestLeaves(s: Store, id: RoomId, owner: Email, guest: Email)
    requires Valid(s) && OwnerAndGuest(s, id, owner, guest)
    ensures LeaveRoom(s, owner, id) == Err(OwnerCanNotLeave)
    ensures var t := LeaveRoom(s, guest, id);
            && t.Ok? && Valid(t.value)
            && t.value.rooms[id].participantsCount == 1
            && OwnerAlone(t.value, id, owner)
  {
    var a := s.users[owner];
    var b := s.users[guest];
    assert |RowsOf(s.participates, id)| == 2;
    assert InRoom(s, id, a) && InRoom(s, id, b) by {
      assert Participate(id, a) in RowsOf(s.participates, id);
      assert Participate(id, b) in RowsOf(s.participates, id);
    }
    var t := LeaveRoom(s, guest, id).value;
    LeaveRoomKeepsValid(s, guest, id);
    RowsAfterRemove(s.participates, Participate(id, b), id);
    assert RowsOf(t.participates, id) == {Participate(id, a)};
  }

  /** The lone owner is told to disable the room rather than leave, and may
      disable it. */
  lemma LoneOwnerDisables(s: Store, id: RoomId, owner: Email)
    requires OwnerAlone(s, id, owner)
    ensures LeaveRoom(s, owner, id) == Err(AlertLeaveRoom)
    ensures var t := DisableRoom(s, owner, id);
            t.Ok? && !t.value.rooms[id].status
  {
    assert InRoom(s, id, s.users[owner]) by {
      assert Participate(id, s.users[owner]) in RowsOf(s.participates, id);
    }
  }

  /** Alice creates a room, Bob joins with its password, Alice may not leave,
      Bob leaves, Alice is told to disable instead, and Alice disables it. */
  lemma RoomLifeScenario(s: Store, enc: PasswordEncoder, alice: Email, bob: Email, title: string,
                         password: string, attempts: seq<seq<Draw>>)
    requires Valid(s) && Sound(enc) && ValidAttempts(attempts)
    requires alice in s.users && bob in s.users && s.users[alice] != s.users[bob]
    requires GenerateCode(Codes(s.rooms), attempts).Some?
    ensures var id := s.nextRoomId;
            var s1 := CreateRoom(s, enc, alice, title, password, attempts);
            && s1.Ok?
            && var code := s1.value.rooms[id].code;
            && var s2 := JoinRoom(s1.value, enc, bob, code, password);
            && s2.Ok? && s2.value.rooms[id].participantsCount == 2
            && LeaveRoom(s2.value, alice, id) == Err(OwnerCanNotLeave)
            && var s3 := LeaveRoom(s2.value, bob, id);
            && s3.Ok? && s3.value.rooms[id].participantsCount == 1
            && LeaveRoom(s3.value, alice, id) == Err(AlertLeaveRoom)
            && var s4 := DisableRoom(s3.value, alice, id);
            && s4.Ok? && !s4.value.rooms[id].status
  {
    var id := s.nextRoomId;
    CreateThenJoin(s, enc, alice, bob, title, password, attempts);
    var s1 := CreateRoom(s, enc, alice, title, password, attempts).value;
    var s2 := JoinRoom(s1, enc, bob, s1.rooms[id].code, password).value;
    GuestLeaves(s2, id, alice, bob);
    var s3 := LeaveRoom(s2, bob, id).value;
    LoneOwnerDisables(s3, id, alice);
  }

  // ---------------------------------------------------------------------------
  // Feeds

  /** `createFeed` does not look at the room's status either: a disabled room
      takes new feeds exactly as an active one does. */
  lemma CreateFeedIgnoresStatus(s: Store, email: Email, roomId: RoomId, title: string, content: string,
                                uploadedUrls: seq<string>, b: bool)
    requires roomId in s.rooms
    ensures var s' := s.(rooms := s.rooms[roomId := s.rooms[roomId].(status := b)]);
            CreateFeed(s', email, roomId, title, content, uploadedUrls).Ok?
            == CreateFeed(s, email, roomId, title, content, uploadedUrls).Ok?
  {
  }

  /** The author reads back the feed they just created, with its uploads in
      order. */
  lemma CreatedFeedReadsBack(s: Store, email: Email, roomId: RoomId, title: string, content: string,
                             uploadedUrls: seq<string>)
    requires Valid(s)
    requires CreateFeed(s, email, roomId, title, content, uploadedUrls).Ok?
    ensures var t := CreateFeed(s, email, roomId, title, content, uploadedUrls).value;
            GetFeed(t, email, s.nextFeedId) == Ok(FeedView(roomId, s.users[email], title, content, uploadedUrls))
  {
    CreateFeedKeepsValid(s, email, roomId, title, content, uploadedUrls, 0);
  }

  /** A failed upload leaves the store valid, and the half-created feed is
      readable by the participants, with no images. */
  lemma UploadFailureLeavesBareFeed(s: Store, email: Email, roomId: RoomId, title: string, content: string,
                                    thrown: Failure)
    requires Valid(s)
    requires email in s.users && roomId in s.rooms && InRoom(s, roomId, s.users[email])
    ensures var t := CreateFeedUploadFails(s, email, roomId, title, content, thrown).store;
            && Valid(t)
            && GetFeed(t, email, s.nextFeedId) == Ok(FeedView(roomId, s.users[email], title, content, []))
  {
    assert CreateFeedUploadFails(s, email, roomId, title, content, thrown).store
        == CreateFeed(s, email, roomId, title, content, []).value;
    CreateFeedKeepsValid(s, email, roomId, title, content, [], 0);
  }

  /** Joining a room is what lets a user read its feeds. */
  lemma JoinGrantsFeedAccess(s: Store, enc: PasswordEncoder, email: Email, code: string, password: string, feedId: FeedId)
    requires Valid(s)
    requires feedId in s.feeds && FindByCode(s, code) == Some(s.feeds[feedId].roomId)
    requires JoinRoom(s, enc, email, code, password).Ok?
    ensures GetFeed(s, email, feedId) == Err(NotInRoom)
    ensures GetFeed(JoinRoom(s, enc, email, code, password).value, email, feedId).Ok?
  {
  }

  /** After the author modifies a feed, every reader sees the new title and
      content, the same room and author, and the same images. */
  lemma ModifiedFeedReadsBack(s: Store, author: Email, reader: Email, feedId: FeedId, title: string, content: string)
    requires ModifyFeed(s, author, feedId, title, content).Ok?
    requires GetFeed(s, reader, feedId).Ok?
    ensures var t := ModifyFeed(s, author, feedId, title, content).value;
            var before := GetFeed(s, reader, feedId).value;
            GetFeed(t, reader, feedId) == Ok(before.(title := title, content := content))
  {
  }

  /** A deleted feed is gone for every registered user. */
  lemma DeletedFeedIsGone(s: Store, author: Email, reader: Email, feedId: FeedId)
    requires DeleteFeed(s, author, feedId).Ok?
    requires reader in s.users
    ensures GetFeed(DeleteFeed(s, author, feedId).value.store, reader, feedId) == Err(NotFoundFeed)
  {
  }
}
