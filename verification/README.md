# Photory rooms and feeds, in Dafny

A model of the server side of Photory, an app where signed-up users share
photo "feeds" inside password-protected rooms of at most eight members. The
model covers:

- **The room lifecycle** of `com.photory.service.RoomService`. This is
  `createRoom`, `joinRoom`, `leaveRoom`, `disableRoom`, `deleteUserForce`,
  `modifyRoomPassword` and `delegateOwner`, plus the join-code generator
  `createRoomCode` / `checkRoomCode`.
- **Feed rules** of `com.photory.service.FeedService`. Participants create and
  read feeds; authors modify and delete them. The module also models the
  object-storage key that `deleteFeed` cuts out of each image URL.
- **The lookups** of `FeedServiceUtils`. A missing user becomes an
  `UnAuthorizedException`; a missing room becomes a `NotFoundException`
  carrying `NOT_FOUND_ROOM_EXCEPTION`.
- **The earlier `com.kale` variant**:
  - `RoomService.createRoom`, which uses the same code generator;
  - the user registry of `AuthService` (`validateEmail`, `createUser`,
    `loginUser`);
  - the range of the e-mail verification key.
- **The `ErrorCode` table**, which maps each failure kind to an HTTP status.

The persisted state is one immutable `Store` value. Every service method is a
pure function from a store to either `Ok(new store)` or `Err(failure)`. The
failure is the exception that the first failing guard throws, and guards run
in the order the Java code runs them. A failure carries no store, so a failed
call leaves the state as it was.

Modules:

- `Outcomes`: `Option` and `Result`.
- `ErrorCodes`: the `ErrorCode` enum and `getStatus`.
- `Passwords`: the password encoder, as an uninterpreted `encode` and
  `matches`. The `Sound` predicate says that a password matches its own
  encoding.
- `RoomCodes`: the code generator shared by both services.
- `PhotoryStore`: the tables, the lookups, and the store invariant `Valid`.
- `RoomService`: the photory room operations.
- `FeedService`: the feed operations, including the `split(".com/")` of image
  URLs.
- `Lifecycle`: invariant preservation for every operation and for any
  sequence of requests, plus status, ownership, capacity and feed-visibility
  properties and the create/join/leave/disable scenario.
- `KaleAuth`: sign-up, login and the verification key.
- `KaleRooms`: kale room creation.

The main invariant (`PhotoryStore.Valid`) has five parts:

- every room's `participantsCount` equals its number of participation rows,
  and is at most 8;
- the code index and the rooms agree, so no two rooms share a code;
- participation rows point at existing rooms;
- image rows point at existing feeds;
- generated ids stay below the next id.

`leaveRoom` and `disableRoom` decide by counting rows, while `joinRoom`
decides by reading `participantsCount`. The invariant is what makes these two
readings agree.

In the following places the code behaves in ways a reader may not expect;
the model follows the code, and each behaviour below is proved:

- **`joinRoom` never reads the room's status**, and neither does
  `createFeed`. A disabled room still takes members and feeds
  (`Lifecycle.JoinIgnoresStatus`, `Lifecycle.CreateFeedIgnoresStatus`).
  Disabling an already disabled room succeeds again
  (`Lifecycle.DisableRoomIdempotent`).
- **`deleteUserForce` has no guard against the owner naming themself.** The
  owner can remove their own row and leave an active room whose owner takes
  no part in it (`Lifecycle.OwnerCanForceRemoveSelf`). Every other request
  keeps owners participating (`Lifecycle.ApplyKeepsOwnersParticipating`).
- **`disableRoom` counts participation rows.** It does not compare
  `participantsCount` with 1, and it reports a non-participating owner only
  after the row count.
- **A full room answers a wrong password with `InvalidPasswordException`**,
  not with the capacity error, because the password is checked first
  (`Lifecycle.FullRoomRejectsJoin`).
- **`modifyRoomPassword` reports a non-participating owner with
  `NotInRoomException`**, where the other owner-only operations use
  `AlreadyNotInRoomException`.
- **The storage key is not simply "everything after `.com/`".**
  `String.split(".com/")` splits on a regular expression whose `.` matches any
  character except a line terminator. The key is `date[1]`: the text after the
  first match, up to the next match. A URL with no match, or with nothing after
  its only match, makes `date[1]` throw (`FeedService.StorageKey`,
  `FeedService.StorageKeyOfUrl`, `FeedService.StorageKeyOfBareHost`).

## Model

| member | source | states |
|---|---|---|
| ErrorCodes.StatusCode | src/main/java/com/photory/common/exception/ErrorCode.java:14-70 | each name group of constants carries one status: `VALIDATION_*` `BAD_REQUEST`, `UNAUTHORIZED_*` `UNAUTHORIZED`, `NOT_FOUND_*` `NOT_FOUND`, `CONFLICT_*` `CONFLICT`, and the room, feed and generic `FORBIDDEN_*` codes `FORBIDDEN`; the two file codes of the `FORBIDDEN_*` block are the only others that carry `BAD_REQUEST` |
| ErrorCodes.Status | src/main/java/com/photory/common/exception/ErrorCode.java:75-77 | every code answers a 4xx or 5xx status; it is 5xx exactly for the internal-server, bad-gateway and service-unavailable codes |
| ErrorCodes.ForbiddenGroup | src/main/java/com/photory/common/exception/ErrorCode.java:26-36 | exactly the room-owner, leave/disable-last, capacity, participant and feed-owner codes plus `FORBIDDEN_EXCEPTION` answer 403; the two file codes listed in the 403 block answer 400 |
| ErrorCodes.NotFoundGroup | src/main/java/com/photory/common/exception/ErrorCode.java:38-43 | a code answers 404 exactly when it is one of the `NOT_FOUND_*` constants |
| ErrorCodes.RoomConflicts | src/main/java/com/photory/common/exception/ErrorCode.java:19-57 | joining twice and leaving twice are 409 conflicts; a wrong password is a 400 |
| ErrorCodes.StatusDeterminedByStatusCode | src/main/java/com/photory/common/exception/ErrorCode.java:72-77 | two codes answer the same status exactly when they carry the same `ErrorStatusCode` |
| RoomCodes.CodeChar | src/main/java/com/photory/service/RoomService.java:313-318 | a branch draw of 0 gives the digit at offset `pick` from '0'; any other branch draw gives the capital letter at offset `pick` from 'A' |
| RoomCodes.Candidate | src/main/java/com/photory/service/RoomService.java:311-320 | a candidate has 8 characters, each in 0-9 or A-Z, and position i is a digit exactly when the i-th branch draw was 0 |
| RoomCodes.CandidateBijective | src/main/java/com/photory/service/RoomService.java:311-320 | every well-formed 8-character code is produced by some draws, and by exactly one choice of draws |
| RoomCodes.CheckRoomCode | src/main/java/com/photory/service/RoomService.java:326-334 | the scan reports true exactly when some stored room has the code |
| RoomCodes.GenerateCode | src/main/java/com/photory/service/RoomService.java:308-324 | the code chosen is well formed, is not taken, and is the first candidate not taken, all earlier candidates being taken; there is no code exactly when every candidate is taken |
| RoomCodes.CreateRoomCode | src/main/java/com/photory/service/RoomService.java:308-334 | the retry loop around `checkRoomCode` returns the generator's first free candidate, so the returned code is well formed and unused; the kale copy (src/main/java/com/kale/service/RoomService.java:52-78) is the same code |
| PhotoryStore.InRoom | src/main/java/com/photory/service/FeedService.java:35-39 | `findByRoomAndUser(room, user).isPresent()`: holds exactly when the rows `findAllByRoom` reports for the room include the user's row |
| PhotoryStore.UserExists | src/main/java/com/photory/service/RoomService.java:218 | `userRepository.findById(id).isPresent()`: holds exactly when some registered email maps to that user id |
| PhotoryStore.Codes | src/main/java/com/photory/service/RoomService.java:327-332 | the codes the `findAll()` scan in `checkRoomCode` sees: a code is in the set exactly when some stored room, disabled or not, carries it |
| PhotoryStore.CodesUnique | src/main/java/com/photory/service/RoomService.java:322-335 | under the code index, two distinct stored rooms never share a code |
| PhotoryStore.RowsOf | src/main/java/com/photory/service/RoomService.java:161 | `findAllByRoom`: a row is reported exactly when it is stored and belongs to the room |
| PhotoryStore.FindByCode | src/main/java/com/photory/service/RoomService.java:77 | a room found by code is a stored room |
| PhotoryStore.FindByCodeExact | src/main/java/com/photory/service/RoomService.java:77-79 | under the code-index invariant, a room is found exactly when some room has the code, and the room found has it |
| PhotoryStore.FindUserByEmail | src/main/java/com/photory/service/feed/FeedServiceUtils.java:18-26 | succeeds exactly when the email is registered, returning that user; otherwise fails with `UnAuthorizedException` |
| PhotoryStore.FindRoomByRoomId | src/main/java/com/photory/service/feed/FeedServiceUtils.java:28-36 | succeeds exactly when the id is stored, returning that room; otherwise fails with `NotFoundException` carrying `NOT_FOUND_ROOM_EXCEPTION` |
| PhotoryStore.ImagesOf | src/main/java/com/photory/service/FeedService.java:69-73 | `findAllByFeed`: each URL reported belongs to a stored image row of the feed, and there are no more URLs than rows |
| PhotoryStore.ImageRows | src/main/java/com/photory/service/FeedService.java:45-50 | one `FeedImage` row per uploaded URL, in upload order |
| PhotoryStore.WithoutImagesOf | src/main/java/com/photory/service/FeedService.java:134-139 | after deleting a feed's images, every remaining row is an original row of another feed |
| PhotoryStore.RowsAfterInsert | src/main/java/com/photory/service/RoomService.java:93-95 | saving a new participation row adds it to its own room's rows, raises that room's row count by one, and leaves every other room's rows alone |
| PhotoryStore.RowsAfterRemove | src/main/java/com/photory/service/RoomService.java:174-176 | deleting a participation row removes it from its own room's rows, lowers that room's row count by one, and leaves every other room's rows alone |
| PhotoryStore.ParticipantCounted | src/main/java/com/photory/service/RoomService.java:156-169 | a room with a participant has at least one row, so the owner branches of `leaveRoom` cover every case |
| PhotoryStore.ImagesOfAppend | src/main/java/com/photory/service/FeedService.java:43-50 | the images of a feed in a table extended at the end are its old images followed by those in the new rows |
| PhotoryStore.ImagesOfAbsent | src/main/java/com/photory/service/FeedService.java:41-43 | a feed with no row in the table has no images |
| PhotoryStore.ImagesOfRows | src/main/java/com/photory/service/FeedService.java:45-50 | the rows written for an upload read back as exactly the uploaded URLs, in order, and as no images of any other feed |
| PhotoryStore.ImagesAfterDelete | src/main/java/com/photory/service/FeedService.java:134-142 | deleting a feed's rows leaves it no images and leaves every other feed its images in their order |
| RoomService.CreateRoom | src/main/java/com/photory/service/RoomService.java:32-54 | unknown caller → `UnAuthorized`; otherwise it fails exactly when no free code is drawn. On success it adds under a fresh id an active room that has the given title, the encoded password, the code the draws pick (the first free candidate, so well-formed and unused), the caller as owner and a count of 1. The caller's row is added and the code is indexed. No other table changes |
| RoomService.JoinRoom | src/main/java/com/photory/service/RoomService.java:71-118 | errors in order: unknown caller, unknown code (`NotFoundRoom`), wrong password, count ≥ 8, already a participant. Success is exactly the remaining case: it adds exactly the caller's row, raises only that room's count by exactly 1, keeps the count ≤ 8, and never reads status |
| RoomService.LeaveRoom | src/main/java/com/photory/service/RoomService.java:150-181 | errors in order: unknown caller, unknown room, non-participant (`AlreadyNotInRoom`), then for the owner `OwnerCanNotLeave` with more than one row or `AlertLeaveRoom` with exactly one. Any other participant succeeds, losing exactly their row while the count drops by exactly 1 |
| RoomService.DisableRoom | src/main/java/com/photory/service/RoomService.java:183-211 | errors in order: unknown caller, unknown room, `NotOwner`, more than one row (`NotAlone`), owner not participating (`AlreadyNotInRoom`). On success the owner's is the room's only row, and only `status` changes, to false |
| RoomService.SoleRow | src/main/java/com/photory/service/RoomService.java:197-206 | when the participating owner passes the "at most one row" check, their row is the room's only row |
| RoomService.DeleteUserForce | src/main/java/com/photory/service/RoomService.java:213-243 | errors in order: unknown caller, unknown room, `NotOwner`, owner not participating (`AlreadyNotInRoom`), unknown target (`Optional.get` fails), target not participating (`UserAlreadyNotInRoom`). Success removes exactly the target's row and lowers only that room's count by 1, with no guard against the target being the owner |
| RoomService.ModifyRoomPassword | src/main/java/com/photory/service/RoomService.java:245-274 | errors in order: unknown caller, unknown room, `NotOwner`, owner not participating (`NotInRoom`), old password mismatch (`InvalidPassword`). Success changes only the room's password, to the encoding of the new one |
| RoomService.DelegateOwner | src/main/java/com/photory/service/RoomService.java:276-306 | errors in order: unknown caller, unknown room, `NotOwner`, owner not participating, unknown target, target not participating. Success changes only `ownerUser`, and both the old and the new owner are participants afterwards |
| FeedService.FirstMatch | src/main/java/com/photory/service/FeedService.java:136 | the leftmost position at or after `from` where the regular expression `.com/` matches; none when nothing there matches |
| FeedService.SegmentsFrom | src/main/java/com/photory/service/FeedService.java:136 | the segments of the text from `from`: the first runs to the first match at or after `from` (the end when there is none), there is more than one exactly when such a match exists, and no segment holds a match |
| FeedService.SplitOnDotCom | src/main/java/com/photory/service/FeedService.java:136 | `String.split(".com/")`: a text without a match splits into itself; otherwise the first part is the text before the first match, the last part is not empty, the result is empty exactly when every segment is, and no part holds a match |
| FeedService.DropTrailingEmpty | src/main/java/com/photory/service/FeedService.java:136 | the parts kept are a prefix that does not end in an empty string, and every part dropped is empty |
| FeedService.StorageKey | src/main/java/com/photory/service/FeedService.java:136-137 | `date[1]`: a URL without a match, or one that ends at its first match, throws the index error; a URL with a match has a key exactly when some segment after the first match is not empty (the key itself may then be empty); a URL whose first match is followed by a character that starts no match has a non-empty key. A key, when there is one, is the text right after the first match, running to the end or to the next match and containing no match |
| FeedService.SecondPart | src/main/java/com/photory/service/FeedService.java:136-137 | the second part of the split is the first segment after the first match; it is missing when the URL ends at that match and present and non-empty when a non-matching character follows it |
| FeedService.FirstMatchIsLeast | src/main/java/com/photory/service/FeedService.java:136 | a match with no match before it is the one `find` reports |
| FeedService.StorageKeyOfUrl | src/main/java/com/photory/service/FeedService.java:136-137 | the storage key of `<host>.com/<key>` is exactly `key`, when neither part holds another match and the key is not empty |
| FeedService.StorageKeyOfDoubleMatch | src/main/java/com/photory/service/FeedService.java:136-137 | a URL whose first `.com/` is directly followed by a second match, as in `<host>.com/xcom/<key>`, splits into `[host, "", key]`, so its key is the empty string and not an error |
| FeedService.StorageKeyOfBareHost | src/main/java/com/photory/service/FeedService.java:136-137 | a URL that ends at its only `.com/` has no `date[1]`: reading the key throws |
| FeedService.StorageKeys | src/main/java/com/photory/service/FeedService.java:134-139 | the loop hands storage one key per image, in table order, each the image's storage key; it fails exactly when some image URL has no key |
| FeedService.CreateFeed | src/main/java/com/photory/service/FeedService.java:31-51 | errors in order: unknown caller, unknown room, non-participant (`NotInRoom`); success is exactly the participant case. Success stores one feed with the room, the caller as author, title and content, then one image row per uploaded URL in upload order, and touches no room table |
| FeedService.CreateFeedUploadFails | src/main/java/com/photory/service/FeedService.java:31-45 | when the upload throws, the guards still fail first and write nothing; past them the exception comes out but the saved feed stays, with no image rows, and no room table changes |
| FeedService.GetFeed | src/main/java/com/photory/service/FeedService.java:53-82 | errors in order: unknown caller, unknown feed (`NotFoundFeed`), caller not in the feed's room (`NotInRoom`); otherwise it returns room id, author id, title, content and image URLs in stored order |
| FeedService.ModifyFeed | src/main/java/com/photory/service/FeedService.java:84-118 | errors in order: unknown caller, unknown feed, caller not the author (`NotFeedOwner`). Participation is not checked. Success replaces only title and content |
| FeedService.DeleteFeed | src/main/java/com/photory/service/FeedService.java:120-143 | errors in order: unknown caller, unknown feed, not the author, then an image URL without a storage key. Success removes the feed and all its image rows, and reports one storage key per image |
| Lifecycle.CreateRoomKeepsValid | src/main/java/com/photory/service/RoomService.java:38-54 | creation keeps the invariant; the new id was free, and the new room's only row is the caller's |
| Lifecycle.CreateRoomIndexesCode | src/main/java/com/photory/service/RoomService.java:41-47 | saving a room under a fresh id with an unused code keeps the codes unique and indexed |
| Lifecycle.AddRoomKeepsValid | src/main/java/com/photory/service/RoomService.java:38-54 | saving a room with count 1 and an unused code under the next id, with its owner's row, keeps the invariant; the id was free, and the owner's row is the room's only row |
| Lifecycle.AddRowKeepsValid | src/main/java/com/photory/service/RoomService.java:88-96 | saving one new row for a room while raising only its count by one, up to 8, keeps every count equal to its rows |
| Lifecycle.RemoveRowKeepsValid | src/main/java/com/photory/service/RoomService.java:174-177 | deleting one row of a room while lowering only its count by one keeps every count equal to its rows |
| Lifecycle.RoomUpdateKeepsValid | src/main/java/com/photory/service/RoomService.java:209-210 | rewriting a room's status, password or owner, with no row touched, keeps the invariant |
| Lifecycle.JoinRoomKeepsValid | src/main/java/com/photory/service/RoomService.java:84-96 | a join keeps every count equal to its rows and at most 8 |
| Lifecycle.LeaveRoomKeepsValid | src/main/java/com/photory/service/RoomService.java:156-177 | a leave keeps every count equal to its rows |
| Lifecycle.DisableRoomKeepsValid | src/main/java/com/photory/service/RoomService.java:208-210 | disabling keeps the invariant |
| Lifecycle.DeleteUserForceKeepsValid | src/main/java/com/photory/service/RoomService.java:229-242 | a forced removal keeps every count equal to its rows |
| Lifecycle.ModifyRoomPasswordKeepsValid | src/main/java/com/photory/service/RoomService.java:266-273 | a password change keeps the invariant |
| Lifecycle.DelegateOwnerKeepsValid | src/main/java/com/photory/service/RoomService.java:297-305 | a delegation keeps the invariant |
| Lifecycle.CreateFeedKeepsValid | src/main/java/com/photory/service/FeedService.java:41-50 | a new feed keeps the invariant, its images read back as the uploads in order, and every other feed keeps its images |
| Lifecycle.ModifyFeedKeepsValid | src/main/java/com/photory/service/FeedService.java:100-103 | modifying a feed keeps the invariant |
| Lifecycle.DeleteFeedKeepsValid | src/main/java/com/photory/service/FeedService.java:134-142 | deleting a feed keeps the invariant, leaves it no images, and leaves every other feed its images |
| Lifecycle.ApplyKeepsValid | src/main/java/com/photory/service/RoomService.java:32-306 | any successful room or feed request keeps the invariant |
| Lifecycle.ApplyEvolvesRooms | src/main/java/com/photory/service/RoomService.java:38-306 | no request removes a room or changes its code, and no request turns a disabled room active: only creation writes `status = true` |
| Lifecycle.RunKeepsValid | src/main/java/com/photory/service/RoomService.java:32-306 | along any sequence of requests, failures included, the invariant holds. Rooms persist with their codes, so a code is never handed out twice, and a disabled room stays disabled |
| Lifecycle.DisableRoomIdempotent | src/main/java/com/photory/service/RoomService.java:183-211 | after a successful disable, disabling again succeeds and changes nothing |
| Lifecycle.JoinIgnoresStatus | src/main/java/com/photory/service/RoomService.java:77-96 | whether a join succeeds does not depend on the room's status |
| Lifecycle.ApplyKeepsOwnersParticipating | src/main/java/com/photory/service/RoomService.java:150-306 | every request except `deleteUserForce` keeps each active room's owner a participant |
| Lifecycle.OwnerCanForceRemoveSelf | src/main/java/com/photory/service/RoomService.java:213-243 | the participating owner can force-remove themself; the room stays active with an owner who takes no part in it |
| Lifecycle.FullRoomRejectsJoin | src/main/java/com/photory/service/RoomService.java:79-83 | a room holding 8 admits nobody: the right password gets the capacity error, a wrong one the password error |
| Lifecycle.CreateThenJoin | src/main/java/com/photory/service/RoomService.java:32-96 | after alice creates a room, bob joins it with its code and password; the room then has exactly alice's and bob's rows and a count of 2 |
| Lifecycle.GuestJoins | src/main/java/com/photory/service/RoomService.java:77-96 | a second user with the right password joins a lone owner's room by its code; the room then has exactly the two rows and a count of 2 |
| Lifecycle.GuestLeaves | src/main/java/com/photory/service/RoomService.java:150-181 | with one guest present the owner is refused with `OwnerCanNotLeave`; the guest leaves, and the owner is left alone with a count of 1 |
| Lifecycle.LoneOwnerDisables | src/main/java/com/photory/service/RoomService.java:164-210 | the owner alone is refused leaving with `AlertLeaveRoom` and may disable the room |
| Lifecycle.RoomLifeScenario | src/main/java/com/photory/service/RoomService.java:32-211 | create, join, refused owner leave, guest leave, refused lone-owner leave, disable: each step has the stated outcome and count |
| Lifecycle.CreateFeedIgnoresStatus | src/main/java/com/photory/service/FeedService.java:31-39 | whether a feed can be created does not depend on the room's status |
| Lifecycle.CreatedFeedReadsBack | src/main/java/com/photory/service/FeedService.java:31-82 | the author reads back the feed just created: its room, author, title, content and uploads in order |
| Lifecycle.UploadFailureLeavesBareFeed | src/main/java/com/photory/service/FeedService.java:41-45 | after a failed upload the store still satisfies the invariant, and the caller reads back the half-created feed with no images |
| Lifecycle.JoinGrantsFeedAccess | src/main/java/com/photory/service/FeedService.java:63-67 | a non-participant is refused a room's feed with `NotInRoom`, and after joining the room reads it |
| Lifecycle.ModifiedFeedReadsBack | src/main/java/com/photory/service/FeedService.java:84-118 | after the author modifies a feed, every reader sees the new title and content with the same room, author and images |
| Lifecycle.DeletedFeedIsGone | src/main/java/com/photory/service/FeedService.java:120-143 | after deletion every registered user gets `NotFoundFeed` |
| KaleAuth.ValidateEmail | src/main/java/com/kale/service/AuthService.java:33-40 | fails with `ExistingEmail` exactly when the email is registered; it returns no new registry |
| KaleAuth.CreateUser | src/main/java/com/kale/service/AuthService.java:52-67 | a registered email fails with `ExistingEmail`; otherwise exactly one user is added under the email, with the encoded password and `ROLE_USER`, and every existing user is kept |
| KaleAuth.LoginUser | src/main/java/com/kale/service/AuthService.java:69-81 | unknown email → `NotFoundEmail`; password mismatch → `InvalidPassword`; it succeeds exactly otherwise, returning the stored user unchanged |
| KaleAuth.ValidateAgreesWithCreate | src/main/java/com/kale/service/AuthService.java:33-58 | the e-mail check passes exactly when sign-up with that email would succeed |
| KaleAuth.CreateUserKeepsKeyed | src/main/java/com/kale/service/AuthService.java:60-66 | sign-up keeps every user stored under its own email |
| KaleAuth.SignUpThenLogin | src/main/java/com/kale/service/AuthService.java:52-81 | whoever signs up logs in with the same password and gets back the user just created |
| KaleAuth.SignUpOnce | src/main/java/com/kale/service/AuthService.java:52-67 | after sign-up the email check and a second sign-up both fail, and the first password stays |
| KaleAuth.SignUpLeavesOthersLogin | src/main/java/com/kale/service/AuthService.java:52-81 | a sign-up does not change anyone else's login outcome |
| KaleAuth.LoginReturnsOwnEmail | src/main/java/com/kale/service/AuthService.java:69-74 | a successful login returns the user with the email asked for |
| KaleAuth.AuthKey | src/main/java/com/kale/service/AuthService.java:45-46 | for a draw in `[0, 888888)` the key lies in `[11111, 899998]` |
| KaleAuth.AuthKeyRange | src/main/java/com/kale/service/AuthService.java:45-46 | a number is some draw's key exactly when it lies in `[11111, 899998]` |
| KaleAuth.AuthKeyInjective | src/main/java/com/kale/service/AuthService.java:46 | distinct draws give distinct keys |
| KaleAuth.DecimalString | src/main/java/com/kale/service/AuthService.java:46 | `String.valueOf` gives at least one decimal digit and, for a positive number, no leading zero |
| KaleAuth.DecimalRoundTrip | src/main/java/com/kale/service/AuthService.java:46 | reading the decimal text back gives the number |
| KaleAuth.DecimalLength | src/main/java/com/kale/service/AuthService.java:46 | a number between 10^k and 10^(k+1) is written with k+1 characters |
| KaleAuth.AuthKeyText | src/main/java/com/kale/service/AuthService.java:46 | the mailed key is five or six digits with no leading zero, and reads back as the key |
| KaleRooms.Codes | src/main/java/com/kale/service/RoomService.java:71-76 | the codes the `findAll()` scan sees: a code is in the set exactly when some stored room carries it |
| KaleRooms.RowsOf | src/main/java/com/kale/service/RoomService.java:42-47 | the participation rows of a room: a row is reported exactly when it is stored and names that room |
| KaleRooms.CreateRoom | src/main/java/com/kale/service/RoomService.java:26-50 | unknown email → `LoginException`; otherwise it fails exactly when no free code is drawn. On success the room has the title, the encoded password, the looked-up user as owner and the code the draws pick (the first free candidate, so well-formed and unused). Exactly one row for the caller's email is added, and the user table is unchanged |
| KaleRooms.CreateRoomKeepsValid | src/main/java/com/kale/service/RoomService.java:26-78 | creation keeps ids fresh, rows and owners registered, and codes unique; the new room's only row is the caller's |
| KaleRooms.SignedUpUserCanCreateRoom | src/main/java/com/kale/service/RoomService.java:27-40 | a freshly signed-up user is never refused with `LoginException` and becomes the owner of the room |

## Left out

- Controllers, DTO building, `getRooms` and `DateUtil`: HTTP routing,
  response wrapping, field copies and clock-dependent intervals. They hold no
  rules of their own.
- `MessageFailedException`: a constant-message exception that no modelled
  operation throws.
- The password hashing algorithm is not modelled. `encode` and `matches` are
  parameters. The one property the proofs need, that a password matches its
  own encoding, is a precondition (`Passwords.Sound`) and not an axiom.
- S3 upload and delete, mail sending, Redis expiry and JWT issuance are
  external I/O. Uploads enter as the list of returned URLs, and deletes leave
  as the list of keys handed to storage.
- RoomCodes.GenerateCode: the random draws are parameters (a branch draw and a
  pick for each character) instead of `Math.random()` doubles. The unbounded
  retry loop is a finite list of candidates, and running out of candidates is
  the failure `RetriesExhausted`, which the original can never return.
  Floating-point rounding is not modelled. For the few largest doubles below
  1, such as (2^53-1)/2^53, `Math.random() * 10 + '0'` rounds to 58.0 (`':'`)
  and `Math.random() * 26 + 'A'` to 91.0 (`'['`), so Java can, rarely, emit a
  character outside the `0-9A-Z` alphabet that `RoomCodes.Candidate` promises.
- KaleAuth.AuthKey: the draw of `Random.nextInt(888888)` is a parameter;
  `Random` itself is not modelled.
- Concurrency: requests run one after another. No service method is
  transactional; where that lets a request throw after it has written, the
  model says so (`createFeed` and `deleteFeed` below).
- FeedService.CreateFeed: the uploaded URLs are a parameter and the upload
  succeeds. The upload throwing after the feed is saved is modelled
  separately by `FeedService.CreateFeedUploadFails`, which keeps the saved
  feed; it is not one of the `Lifecycle` commands.
- RoomService.DeleteUserForce and RoomService.DelegateOwner: `Optional.get()`
  on an unknown target user becomes the failure `NoSuchElement`.
- FeedService.DeleteFeed: the Java loop deletes storage objects and image rows
  one by one, so an image without a key aborts the request part-way. The model
  fails the whole call before writing anything.
- FeedService.ModifyFeed: the Java code compares the author's and the caller's
  ids with `!=` on boxed `Long`s, which compares references. The model
  compares the values. Whether the two references coincide depends on entity
  loading, which is not part of this model.
- RoomService.LeaveRoom, RoomService.DisableRoom, RoomService.DeleteUserForce,
  RoomService.ModifyRoomPassword, RoomService.DelegateOwner and
  FeedService.DeleteFeed: the owner and author checks compare `User` entities
  with `==` and `!=`, which compares references. The model compares user ids,
  taking the persistence context to hand out one object per row.
- PhotoryStore.ImagesOf: `feedImageRepository.findAllByFeed` is a derived
  query without an ordering clause, so the database promises no row order. The
  model takes it to return a feed's image rows in insertion order; every "in
  order" claim about images (`GetFeed`, `StorageKeys`, `CreatedFeedReadsBack`
  and the `ImagesOf*` lemmas) rests on that.
- `FeedService` sits in package `com.photory.service` and does not import
  `com.photory.service.feed`, so its `FeedServiceUtils` calls name a class of
  its own package that is not part of this model. `PhotoryStore.FindUserByEmail`
  and `PhotoryStore.FindRoomByRoomId` model the `com.photory.service.feed`
  class of that name and take the other to behave the same.
- `RoomServiceUtils` is not part of this model. Its `findUserByEmail` and
  `findRoomByRoomId` are taken to behave like the `FeedServiceUtils` methods
  of the same names.
- ErrorCodes.HttpStatus: `ErrorStatusCode` is not part of this model. Its
  numbers are the standard HTTP status codes of those names (section 15 of
  RFC 9110).
- The kale `Room` and `Participate` entities are not part of this model
  beyond the fields `createRoom` sets. Their defaults for any other columns
  are not modelled.
- `getRooms`, `authEmail`'s mail and `createToken` have no state effect
  beyond the I/O above and are not modelled as operations.
