/** The persisted state the photory services read and write, as one immutable
    value: the user, room, participation, feed and feed-image tables, plus the
    unique index on room codes that `findByCode` uses. Entity identity is the
    table key, so the services' `==` on `User` entities and on boxed `Long`
    ids become comparisons of ids. */
module PhotoryStore {
  import opened Outcomes
  import ErrorCodes
  import opened Passwords

  type UserId = nat
  type RoomId = nat
  type FeedId = nat
  type Email = string

  /** The room size limit `joinRoom` enforces. */
  const Capacity: int := 8

  datatype Room = Room(
    title: string,
    password: Hash,
    code: string,
    ownerId: UserId,
    participantsCount: int,
    status: bool)

  /** One participation row: `userId` takes part in `roomId`. */
  datatype Participate = Participate(roomId: RoomId, userId: UserId)

  datatype Feed = Feed(roomId: RoomId, authorId: UserId, title: string, content: string)

  /** One feed-image row; the table keeps rows in insertion order. */
  datatype FeedImage = FeedImage(feedId: FeedId, imageUrl: string)

  datatype Store = Store(
    users: map<Email, UserId>,
    rooms: map<RoomId, Room>,
    byCode: map<string, RoomId>,
    participates: set<Participate>,
    feeds: map<FeedId, Feed>,
    feedImages: seq<FeedImage>,
    nextRoomId: RoomId,
    nextFeedId: FeedId)

  /** The exceptions the photory services throw. The last three stand for
      runtime failures rather than declared exceptions: `Optional.get()` on an
      empty optional, `date[1]` on a split URL with fewer than two parts, and a
      code generator that was given no free candidate. */
  datatype Failure =
    | UnAuthorized
    | NotFound(code: ErrorCodes.ErrorCode)
    | NotFoundRoom
    | InvalidPassword
    | ExceedRoomCapacity
    | AlreadyInRoom
    | AlreadyNotInRoom
    | OwnerCanNotLeave
    | AlertLeaveRoom
    | NotOwner
    | NotAlone
    | UserAlreadyNotInRoom
    | NotInRoom
    | NotFoundFeed
    | NotFeedOwner
    | NoSuchElement
    | IndexOutOfBounds
    | RetriesExhausted

  // ---------------------------------------------------------------------------
  // Queries

  /** `participateRepository.findAllByRoom(room)`. */
  function RowsOf(participates: set<Participate>, roomId: RoomId): (rows: set<Participate>)
    ensures rows <= participates
    ensures forall p :: p in rows <==> p in participates && p.roomId == roomId
  {
    set p | p in participates && p.roomId == roomId
  }

  /** `participateRepository.findByRoomAndUser(room, user).isPresent()`. */
  function InRoom(s: Store, roomId: RoomId, userId: UserId): (b: bool)
    ensures b <==> Participate(roomId, userId) in RowsOf(s.participates, roomId)
  {
    Participate(roomId, userId) in s.participates
  }

  /** `userRepository.findById(id).isPresent()`. */
  function UserExists(s: Store, userId: UserId): (b: bool)
    ensures b <==> exists email :: email in s.users && s.users[email] == userId
  {
    userId in s.users.Values
  }

  /** The codes of all rooms, disabled ones included (`roomRepository.findAll()`). */
  function Codes(rooms: map<RoomId, Room>): (r: set<string>)
    ensures forall c :: c in r <==> exists id :: id in rooms && rooms[id].code == c
  {
    set id | id in rooms :: rooms[id].code
  }

  /** `roomRepository.findByCode(code)`, through the unique index. */
  function FindByCode(s: Store, code: string): (r: Option<RoomId>)
    ensures r.Some? ==> r.value in s.rooms
  {
    if code in s.byCode && s.byCode[code] in s.rooms then Some(s.byCode[code]) else None
  }

  /** `FeedServiceUtils.findUserByEmail`: the user registered under `email`, or
      an `UnAuthorizedException`. */
  function FindUserByEmail(users: map<Email, UserId>, email: Email): (r: Result<UserId, Failure>)
    ensures email in users <==> r.Ok?
    ensures r.Ok? ==> r.value == users[email]
    ensures r.Err? ==> r.error == UnAuthorized
  {
    if email in users then Ok(users[email]) else Err(UnAuthorized)
  }

  /** `FeedServiceUtils.findRoomByRoomId`: the stored room, or a
      `NotFoundException` carrying `NOT_FOUND_ROOM_EXCEPTION`. */
  function FindRoomByRoomId(rooms: map<RoomId, Room>, roomId: RoomId): (r: Result<Room, Failure>)
    ensures roomId in rooms <==> r.Ok?
    ensures r.Ok? ==> r.value == rooms[roomId]
    ensures r.Err? ==> r.error == NotFound(ErrorCodes.NotFoundRoomException)
  {
    if roomId in rooms then Ok(rooms[roomId]) else Err(NotFound(ErrorCodes.NotFoundRoomException))
  }

  /** `feedImageRepository.findAllByFeed(feed)`, mapped to image URLs. */
  function ImagesOf(images: seq<FeedImage>, feedId: FeedId): (urls: seq<string>)
    ensures |urls| <= |images|
    ensures forall u :: u in urls ==> FeedImage(feedId, u) in images
  {
    if |images| == 0 then []
    else
      var rest := ImagesOf(images[1..], feedId);
      if images[0].feedId == feedId then [images[0].imageUrl] + rest else rest
  }

  /** The rows `FeedImage.of(feed, url)` for each URL, in upload order. */
  function ImageRows(feedId: FeedId, urls: seq<string>): (rows: seq<FeedImage>)
    ensures |rows| == |urls|
    ensures forall i :: 0 <= i < |rows| ==> rows[i] == FeedImage(feedId, urls[i])
  {
    seq(|urls|, i requires 0 <= i < |urls| => FeedImage(feedId, urls[i]))
  }

  /** The image table after every row of `feedId` is deleted. */
  function WithoutImagesOf(images: seq<FeedImage>, feedId: FeedId): (rest: seq<FeedImage>)
    ensures |rest| <= |images|
    ensures forall i :: 0 <= i < |rest| ==> rest[i].feedId != feedId && rest[i] in images
  {
    if |images| == 0 then []
    else
      var tail := WithoutImagesOf(images[1..], feedId);
      if images[0].feedId == feedId then tail else [images[0]] + tail
  }

  // ---------------------------------------------------------------------------
  // The store invariant

  /** Every participation row points at an existing room. */
  ghost predicate RowsInRooms(s: Store)
  {
    forall p | p in s.participates :: p.roomId in s.rooms
  }

  /** Generated ids are below the next id to hand out. */
  ghost predicate IdsBelowNext(s: Store)
  {
    && (forall id | id in s.rooms :: id < s.nextRoomId)
    && (forall id | id in s.feeds :: id < s.nextFeedId)
  }

  /** The denormalised `participantsCount` equals the number of participation
      rows of the room, and never exceeds the capacity. */
  ghost predicate CountsMatchRows(s: Store)
  {
    forall id | id in s.rooms ::
      s.rooms[id].participantsCount == |RowsOf(s.participates, id)| <= Capacity
  }

  /** The code index and the rooms agree, so codes are unique. */
  ghost predicate CodeIndexed(s: Store)
  {
    && (forall c | c in s.byCode :: s.byCode[c] in s.rooms && s.rooms[s.byCode[c]].code == c)
    && (forall id | id in s.rooms :: s.rooms[id].code in s.byCode && s.byCode[s.rooms[id].code] == id)
  }

  /** Under the code index no two rooms share a code. */
  lemma CodesUnique(s: Store, i: RoomId, j: RoomId)
    requires CodeIndexed(s) && i in s.rooms && j in s.rooms && i != j
    ensures s.rooms[i].code != s.rooms[j].code
  {
  }

  /** Every image row belongs to an existing feed. */
  ghost predicate ImagesInFeeds(s: Store)
  {
    forall i | 0 <= i < |s.feedImages| :: s.feedImages[i].feedId in s.feeds
  }

  ghost predicate Valid(s: Store)
  {
    RowsInRooms(s) && IdsBelowNext(s) && CountsMatchRows(s) && CodeIndexed(s) && ImagesInFeeds(s)
  }

  /** Every active room's owner takes part in it. The services keep this except
      through `deleteUserForce`, see `Lifecycle.OwnerCanForceRemoveSelf`. */
  ghost predicate OwnersParticipate(s: Store)
  {
    forall id | id in s.rooms && s.rooms[id].status :: InRoom(s, id, s.rooms[id].ownerId)
  }

  // ---------------------------------------------------------------------------
  // Facts about the queries

  /** Under the invariant, `findByCode` finds a room exactly when some room has
      that code, and the room it finds has it. */
  lemma FindByCodeExact(s: Store, code: string)
    requires CodeIndexed(s)
    ensures FindByCode(s, code).Some? <==> code in Codes(s.rooms)
    ensures FindByCode(s, code).Some? ==> s.rooms[FindByCode(s, code).value].code == code
  {
    if code in Codes(s.rooms) {
      var id :| id in s.rooms && s.rooms[id].code == code;
      assert s.byCode[code] == id;
    }
  }

  /** Adding one row changes the rows of its own room only, by that row. */
  lemma RowsAfterInsert(ps: set<Participate>, p: Participate, id: RoomId)
    requires p !in ps
    ensures p.roomId == id ==> RowsOf(ps + {p}, id) == RowsOf(ps, id) + {p}
    ensures p.roomId == id ==> |RowsOf(ps + {p}, id)| == |RowsOf(ps, id)| + 1
    ensures p.roomId != id ==> RowsOf(ps + {p}, id) == RowsOf(ps, id)
  {
    if p.roomId == id {
      assert RowsOf(ps + {p}, id) == RowsOf(ps, id) + {p};
    } else {
      assert RowsOf(ps + {p}, id) == RowsOf(ps, id);
    }
  }

  /** Removing one row changes the rows of its own room only, by that row. */
  lemma RowsAfterRemove(ps: set<Participate>, p: Participate, id: RoomId)
    requires p in ps
    ensures p.roomId == id ==> RowsOf(ps - {p}, id) == RowsOf(ps, id) - {p}
    ensures p.roomId == id ==> |RowsOf(ps - {p}, id)| == |RowsOf(ps, id)| - 1
    ensures p.roomId != id ==> RowsOf(ps - {p}, id) == RowsOf(ps, id)
  {
    if p.roomId == id {
      assert RowsOf(ps - {p}, id) == RowsOf(ps, id) - {p};
      assert p in RowsOf(ps, id);
    } else {
      assert RowsOf(ps - {p}, id) == RowsOf(ps, id);
    }
  }

  /** A participant's room has at least one row. */
  lemma ParticipantCounted(s: Store, roomId: RoomId, userId: UserId)
    requires InRoom(s, roomId, userId)
    ensures |RowsOf(s.participates, roomId)| >= 1
  {
    assert Participate(roomId, userId) in RowsOf(s.participates, roomId);
  }

  /** The image URLs of a feed in a table extended at the end are its URLs in
      the old table followed by those in the new rows. */
  lemma {:induction false} ImagesOfAppend(a: seq<FeedImage>, b: seq<FeedImage>, feedId: FeedId)
    ensures ImagesOf(a + b, feedId) == ImagesOf(a, feedId) + ImagesOf(b, feedId)
  {
    if |a| == 0 {
      assert a + b == b;
    } else {
      assert (a + b)[1..] == a[1..] + b;
      ImagesOfAppend(a[1..], b, feedId);
    }
  }

  /** A feed with no row in the table has no images. */
  lemma {:induction false} ImagesOfAbsent(images: seq<FeedImage>, feedId: FeedId)
    requires forall i :: 0 <= i < |images| ==> images[i].feedId != feedId
    ensures ImagesOf(images, feedId) == []
  {
    if |images| > 0 {
      ImagesOfAbsent(images[1..], feedId);
    }
  }

  /** The rows written for a feed's uploads read back as those URLs, in order. */
  lemma {:induction false} ImagesOfRows(feedId: FeedId, urls: seq<string>, other: FeedId)
    ensures ImagesOf(ImageRows(feedId, urls), feedId) == urls
    ensures other != feedId ==> ImagesOf(ImageRows(feedId, urls), other) == []
  {
    if |urls| > 0 {
      var rows := ImageRows(feedId, urls);
      assert rows[1..] == ImageRows(feedId, urls[1..]);
      ImagesOfRows(feedId, urls[1..], other);
      assert urls == [urls[0]] + urls[1..];
    }
  }

  /** Deleting a feed's rows leaves it no images and every other feed its
      images in their order. */
  lemma {:induction false} ImagesAfterDelete(images: seq<FeedImage>, feedId: FeedId, other: FeedId)
    ensures ImagesOf(WithoutImagesOf(images, feedId), feedId) == []
    ensures other != feedId ==> ImagesOf(WithoutImagesOf(images, feedId), other) == ImagesOf(images, other)
  {
    if |images| > 0 {
      ImagesAfterDelete(images[1..], feedId, other);
    }
  }
}
