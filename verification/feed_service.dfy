/** com.photory.service.FeedService: who may create, read, modify and delete a
    feed, what each operation writes, and which object-storage keys a deletion
    hands to the storage service. The upload itself is outside the model: the
    URLs it returns are a parameter. */
module FeedService {
  import opened Outcomes
  import opened PhotoryStore

  /** What `getFeed` and `modifyFeed` answer with. */
  datatype FeedView = FeedView(roomId: RoomId, authorId: UserId, title: string, content: string, imageUrls: seq<string>)

  /** A successful `deleteFeed`: the store after the deletes, and the keys
      passed to `s3Service.deleteFile`, one per image, in table order. */
  datatype FeedDeletion = FeedDeletion(store: Store, deletedKeys: seq<string>)

  /** A request that threw `thrown` after it had written `store`. */
  datatype Aborted = Aborted(store: Store, thrown: Failure)

  /** Nothing outside the feed and feed-image tables changed. */
  predicate FeedTablesOnly(s: Store, t: Store)
  {
    && t.users == s.users
    && t.rooms == s.rooms
    && t.byCode == s.byCode
    && t.participates == s.participates
    && t.nextRoomId == s.nextRoomId
  }

  // ---------------------------------------------------------------------------
  // `imageUrl.split(".com/")`: Java splits on the regular expression `.com/`,
  // whose `.` matches any character but a line terminator.

  predicate IsLineTerminator(c: char)
  {
    c == '\n' || c == '\r' || c == '\U{0085}' || c == '\U{2028}' || c == '\U{2029}'
  }

  /** The regular expression `.com/` matches the five characters at `i`. */
  predicate MatchAt(s: string, i: int)
  {
    && 0 <= i && i + 5 <= |s|
    && !IsLineTerminator(s[i])
    && s[i + 1] == 'c' && s[i + 2] == 'o' && s[i + 3] == 'm' && s[i + 4] == '/'
  }

  predicate NoMatch(s: string)
  {
    forall i :: 0 <= i < |s| ==> !MatchAt(s, i)
  }

  /** The leftmost match at or after `from` (`Matcher.find`). */
  function FirstMatch(s: string, from: nat): (r: Option<nat>)
    decreases |s| - from
    ensures r.Some? ==> from <= r.value && MatchAt(s, r.value)
    ensures r.Some? ==> forall j :: from <= j < r.value ==> !MatchAt(s, j)
    ensures r.None? ==> forall j :: from <= j ==> !MatchAt(s, j)
  {
    if |s| < from + 5 then None
    else if MatchAt(s, from) then Some(from)
    else FirstMatch(s, from + 1)
  }

  /** The text from `a` to `b` holds no match when no match of `s` starts in
      it and ends by `b`. */
  lemma SliceNoMatch(s: string, a: nat, b: nat)
    requires a <= b <= |s|
    requires forall j :: a <= j && j + 5 <= b ==> !MatchAt(s, j)
    ensures NoMatch(s[a..b])
  {
    forall k | 0 <= k < b - a
      ensures !MatchAt(s[a..b], k)
    {
      if k + 5 <= b - a {
        assert !MatchAt(s, a + k);
        assert forall t :: k <= t < k + 5 ==> s[a..b][t] == s[a + t];
      }
    }
  }

  /** The text between successive matches, starting at `from`: the first part
      runs from `from` to the first match at or after it (or to the end), there
      are further parts exactly when there is such a match, and no part holds
      a match. */
  function SegmentsFrom(s: string, from: nat): (parts: seq<string>)
    requires from <= |s|
    decreases |s| - from
    ensures |parts| >= 1
    ensures FirstMatch(s, from).None? ==> parts == [s[from..]]
    ensures FirstMatch(s, from).Some? ==>
      |parts| >= 2 && parts[0] == s[from..FirstMatch(s, from).value]
    ensures forall k :: 0 <= k < |parts| ==> NoMatch(parts[k])
  {
    match FirstMatch(s, from)
    case None =>
      SliceNoMatch(s, from, |s|);
      assert s[from..] == s[from..|s|];
      [s[from..]]
    case Some(i) =>
      SliceNoMatch(s, from, i);
      [s[from..i]] + SegmentsFrom(s, i + 5)
  }

  /** The parts after trailing empty strings are removed. */
  function DropTrailingEmpty(parts: seq<string>): (r: seq<string>)
    ensures |r| <= |parts| && r == parts[..|r|]
    ensures |r| > 0 ==> r[|r| - 1] != ""
    ensures forall i :: |r| <= i < |parts| ==> parts[i] == ""
  {
    if |parts| > 0 && parts[|parts| - 1] == "" then DropTrailingEmpty(parts[..|parts| - 1])
    else parts
  }

  /** `String.split(".com/")` with its zero limit: the whole string when
      nothing matches, otherwise the segments without trailing empty ones. */
  function SplitOnDotCom(s: string): (r: seq<string>)
    ensures FirstMatch(s, 0).None? ==> r == [s]
    ensures FirstMatch(s, 0).Some? ==>
      && (|r| > 0 ==> r[0] == s[..FirstMatch(s, 0).value] && r[|r| - 1] != "")
      && (r == [] ==> forall k :: 0 <= k < |SegmentsFrom(s, 0)| ==> SegmentsFrom(s, 0)[k] == "")
      && ((exists k :: 0 <= k < |SegmentsFrom(s, 0)| && SegmentsFrom(s, 0)[k] != "") ==> r != [])
    ensures forall k :: 0 <= k < |r| ==> NoMatch(r[k])
  {
    if FirstMatch(s, 0).None? then [s]
    else
      var parts := SegmentsFrom(s, 0);
      var r := DropTrailingEmpty(parts);
      assert |r| > 0 ==> r[|r| - 1] == parts[|r| - 1] && parts[|r| - 1] != "";
      assert r == [] ==> forall k :: 0 <= k < |parts| ==> parts[k] == "";
      r
  }

  /** `date[1]` of the split URL: the storage key `deleteFeed` deletes. It is
      the text after the first match up to the next match or the end; a URL
      with no match, or with nothing but empty text after its first match,
      has no second part. */
  function StorageKey(url: string): (r: Result<string, Failure>)
    ensures FirstMatch(url, 0).None? ==> r == Err(IndexOutOfBounds)
    ensures FirstMatch(url, 0).Some? && FirstMatch(url, 0).value + 5 == |url| ==> r == Err(IndexOutOfBounds)
    ensures (&& FirstMatch(url, 0).Some? && FirstMatch(url, 0).value + 5 < |url|
             && !MatchAt(url, FirstMatch(url, 0).value + 5)) ==> r.Ok? && r.value != ""
    ensures FirstMatch(url, 0).Some? ==>
      (r.Ok? <==> exists k :: 1 <= k < |SegmentsFrom(url, 0)| && SegmentsFrom(url, 0)[k] != "")
    ensures r.Err? ==> r.error == IndexOutOfBounds
    ensures r.Ok? ==>
      && FirstMatch(url, 0).Some?
      && var start := FirstMatch(url, 0).value + 5;
      && var end := start + |r.value|;
      && end <= |url|
      && r.value == url[start..end]
      && (end == |url| || MatchAt(url, end))
      && forall j :: start <= j < end ==> !MatchAt(url, j)
  {
    var parts := SplitOnDotCom(url);
    if |parts| >= 2 then
      SecondPart(url);
      assert parts[|parts| - 1] == SegmentsFrom(url, 0)[|parts| - 1] != "";
      Ok(parts[1])
    else
      if FirstMatch(url, 0).Some? then SecondPart(url); Err(IndexOutOfBounds)
      else Err(IndexOutOfBounds)
  }

  /** Where `date[1]` comes from: the first segment after the first match. It
      is missing when the URL ends at that match, and present and non-empty
      when a character that starts no match follows it. */
  lemma SecondPart(url: string)
    requires FirstMatch(url, 0).Some?
    ensures var m := FirstMatch(url, 0).value;
            var parts := SplitOnDotCom(url);
            && m + 5 <= |url|
            && (|parts| >= 2 ==> parts[1] == SegmentsFrom(url, m + 5)[0])
            && (m + 5 == |url| ==> |parts| < 2)
            && (m + 5 < |url| && !MatchAt(url, m + 5) ==> |parts| >= 2 && parts[1] != "")
  {
    var m := FirstMatch(url, 0).value;
    var seg := SegmentsFrom(url, 0);
    var rest := SegmentsFrom(url, m + 5);
    var parts := SplitOnDotCom(url);
    assert seg == [url[0..m]] + rest;
    assert seg[1] == rest[0];
    if m + 5 == |url| {
      assert FirstMatch(url, m + 5).None?;
      assert rest == [url[m + 5..]] && url[m + 5..] == "";
      assert |seg| == 2 && seg[1] == "";
    }
    if m + 5 < |url| && !MatchAt(url, m + 5) {
      match FirstMatch(url, m + 5) {
        case None =>
          assert rest[0] == url[m + 5..];
        case Some(e) =>
          assert |rest[0]| == e - (m + 5) > 0;
      }
      assert rest[0] != "";
      assert |parts| >= 2;
    }
  }

  /** An object-storage URL `<host>.com/<key>` whose host and key hold no
      further match yields exactly the key. */
  lemma StorageKeyOfUrl(host: string, key: string)
    requires NoMatch(host) && NoMatch(key) && key != ""
    ensures StorageKey(host + ".com/" + key) == Ok(key)
  {
    var url := host + ".com/" + key;
    var m := |host|;
    assert MatchAt(url, m);
    forall j | 0 <= j < m
      ensures !MatchAt(url, j)
    {
      if j + 5 <= m {
        assert !MatchAt(host, j);
        assert forall t :: j <= t < j + 5 ==> url[t] == host[t];
      }
    }
    assert FirstMatch(url, 0) == Some(m) by {
      FirstMatchIsLeast(url, 0, m);
    }
    forall j | m + 5 <= j
      ensures !MatchAt(url, j)
    {
      if j + 5 <= |url| {
        assert !MatchAt(key, j - m - 5);
        assert forall t :: j <= t < j + 5 ==> url[t] == key[t - m - 5];
      }
    }
    assert FirstMatch(url, m + 5).None?;
    assert url[m + 5..] == key;
    assert SegmentsFrom(url, m + 5) == [key];
    assert url[0..m] == host;
    assert SegmentsFrom(url, 0) == [host, key];
  }

  /** `FirstMatch` from `from` is `m` when `m` matches and nothing before it does. */
  lemma {:induction false} FirstMatchIsLeast(s: string, from: nat, m: nat)
    requires from <= m && MatchAt(s, m)
    requires forall j :: from <= j < m ==> !MatchAt(s, j)
    ensures FirstMatch(s, from) == Some(m)
    decreases m - from
  {
    if from < m {
      FirstMatchIsLeast(s, from + 1, m);
    }
  }

  /** A URL whose first match is directly followed by a second one, as in
      `<host>.com/xcom/<key>`, splits into `[host, "", key]`: `date[1]` is the
      empty string, and that empty key is what the deletion hands to storage. */
  lemma StorageKeyOfDoubleMatch(host: string, c: char, key: string)
    requires NoMatch(host) && NoMatch(key) && key != "" && !IsLineTerminator(c)
    ensures StorageKey(host + ".com/" + [c] + "com/" + key) == Ok("")
  {
    var url := host + ".com/" + [c] + "com/" + key;
    var m := |host|;
    forall j | 0 <= j < m
      ensures !MatchAt(url, j)
    {
      if j + 5 <= m {
        assert !MatchAt(host, j);
        assert forall t :: j <= t < j + 5 ==> url[t] == host[t];
      }
    }
    FirstMatchIsLeast(url, 0, m);
    assert MatchAt(url, m + 5);
    FirstMatchIsLeast(url, m + 5, m + 5);
    forall j | m + 10 <= j
      ensures !MatchAt(url, j)
    {
      if j + 5 <= |url| {
        assert !MatchAt(key, j - m - 10);
        assert forall t :: j <= t < j + 5 ==> url[t] == key[t - m - 10];
      }
    }
    assert FirstMatch(url, m + 10).None?;
    assert url[m + 10..] == key;
    assert SegmentsFrom(url, m + 10) == [key];
    assert SegmentsFrom(url, m + 5) == [""] + [key];
    assert url[0..m] == host;
    assert SegmentsFrom(url, 0) == [host, "", key];
  }

  /** A URL ending in `.com/` has only empty text after its match: reading
      `date[1]` fails. */
  lemma StorageKeyOfBareHost(host: string)
    requires NoMatch(host)
    ensures StorageKey(host + ".com/") == Err(IndexOutOfBounds)
  {
    var url := host + ".com/";
    var m := |host|;
    forall j | 0 <= j < m
      ensures !MatchAt(url, j)
    {
      if j + 5 <= m {
        assert !MatchAt(host, j);
        assert forall t :: j <= t < j + 5 ==> url[t] == host[t];
      }
    }
    FirstMatchIsLeast(url, 0, m);
    assert |url| == m + 5 && FirstMatch(url, m + 5).None?;
    assert |url[m + 5..]| == 0;
    assert SegmentsFrom(url, m + 5) == [url[m + 5..]] == [""];
    assert SegmentsFrom(url, 0) == [host, ""];
  }

  /** The keys of a feed's images in table order, or the first failure. */
  function StorageKeys(urls: seq<string>): (r: Result<seq<string>, Failure>)
    ensures r.Ok? <==> forall i :: 0 <= i < |urls| ==> StorageKey(urls[i]).Ok?
    ensures r.Ok? ==> |r.value| == |urls|
    ensures r.Ok? ==> forall i :: 0 <= i < |urls| ==> StorageKey(urls[i]) == Ok(r.value[i])
    ensures r.Err? ==> r.error == IndexOutOfBounds
  {
    if |urls| == 0 then Ok([])
    else
      var key :- StorageKey(urls[0]);
      var rest :- StorageKeys(urls[1..]);
      assert forall i :: 1 <= i < |urls| ==> urls[i] == urls[1..][i - 1];
      Ok([key] + rest)
  }

  // ---------------------------------------------------------------------------
  // The service

  /** `createFeed`: a participant of the room posts a feed; the uploaded URLs
      become its image rows in upload order. */
  function CreateFeed(s: Store, email: Email, roomId: RoomId, title: string, content: string,
                      uploadedUrls: seq<string>): (r: Result<Store, Failure>)
    ensures email !in s.users ==> r == Err(UnAuthorized)
    ensures email in s.users && roomId !in s.rooms ==> r == Err(NotFound(ErrorCodes.NotFoundRoomException))
    ensures email in s.users && roomId in s.rooms ==>
      (r.Ok? <==> InRoom(s, roomId, s.users[email])) &&
      (r.Err? ==> r.error == NotInRoom)
    ensures r.Ok? ==>
      && email in s.users
      && var id := s.nextFeedId;
      && r.value.feeds == s.feeds[id := Feed(roomId, s.users[email], title, content)]
      && r.value.feedImages == s.feedImages + ImageRows(id, uploadedUrls)
      && r.value.nextFeedId == id + 1
      && FeedTablesOnly(s, r.value)
  {
    var uid :- FindUserByEmail(s.users, email);
    var room :- FindRoomByRoomId(s.rooms, roomId);
    if !InRoom(s, roomId, uid) then Err(NotInRoom)
    else
      var id := s.nextFeedId;
      Ok(s.(feeds := s.feeds[id := Feed(roomId, uid, title, content)],
            feedImages := s.feedImages + ImageRows(id, uploadedUrls),
            nextFeedId := id + 1))
  }

  /** `createFeed` when `s3Service.uploadFile` throws `thrown`. The feed was
      already saved and nothing undoes the save, so the request fails but
      leaves the feed behind without image rows. The guards fail as in
      `CreateFeed`, before anything is written. */
  function CreateFeedUploadFails(s: Store, email: Email, roomId: RoomId, title: string, content: string,
                                 thrown: Failure): (r: Aborted)
    ensures email !in s.users ==> r == Aborted(s, UnAuthorized)
    ensures email in s.users && roomId !in s.rooms ==> r == Aborted(s, NotFound(ErrorCodes.NotFoundRoomException))
    ensures email in s.users && roomId in s.rooms && !InRoom(s, roomId, s.users[email]) ==>
      r == Aborted(s, NotInRoom)
    ensures email in s.users && roomId in s.rooms && InRoom(s, roomId, s.users[email]) ==>
      && r.thrown == thrown
      && r.store.feeds == s.feeds[s.nextFeedId := Feed(roomId, s.users[email], title, content)]
      && r.store.feedImages == s.feedImages
      && r.store.nextFeedId == s.nextFeedId + 1
      && FeedTablesOnly(s, r.store)
  {
    match CreateFeed(s, email, roomId, title, content, [])
    case Err(e) => Aborted(s, e)
    case Ok(t) =>
      assert s.feedImages + ImageRows(s.nextFeedId, []) == s.feedImages;
      Aborted(t, thrown)
  }

  /** `getFeed`: a participant of the feed's room reads it. */
  function GetFeed(s: Store, email: Email, feedId: FeedId): (r: Result<FeedView, Failure>)
    ensures email !in s.users ==> r == Err(UnAuthorized)
    ensures email in s.users && feedId !in s.feeds ==> r == Err(NotFoundFeed)
    ensures email in s.users && feedId in s.feeds ==>
      (r.Ok? <==> InRoom(s, s.feeds[feedId].roomId, s.users[email])) &&
      (r.Err? ==> r.error == NotInRoom)
    ensures r.Ok? ==>
      && feedId in s.feeds
      && var f := s.feeds[feedId];
      && r.value.roomId == f.roomId && r.value.authorId == f.authorId
      && r.value.title == f.title && r.value.content == f.content
      && r.value.imageUrls == ImagesOf(s.feedImages, feedId)
  {
    var uid :- FindUserByEmail(s.users, email);
    var feed :- if feedId in s.feeds then Ok(s.feeds[feedId]) else Err(NotFoundFeed);
    if !InRoom(s, feed.roomId, uid) then Err(NotInRoom)
    else Ok(FeedView(feed.roomId, feed.authorId, feed.title, feed.content, ImagesOf(s.feedImages, feedId)))
  }

  /** `modifyFeed`: the author, participating or not, replaces title and
      content. */
  function ModifyFeed(s: Store, email: Email, feedId: FeedId, title: string, content: string): (r: Result<Store, Failure>)
    ensures email !in s.users ==> r == Err(UnAuthorized)
    ensures email in s.users && feedId !in s.feeds ==> r == Err(NotFoundFeed)
    ensures email in s.users && feedId in s.feeds ==>
      (r.Ok? <==> s.feeds[feedId].authorId == s.users[email]) &&
      (r.Err? ==> r.error == NotFeedOwner)
    ensures r.Ok? ==>
      && feedId in s.feeds
      && r.value.feeds == s.feeds[feedId := s.feeds[feedId].(title := title, content := content)]
      && r.value.feedImages == s.feedImages
      && r.value.nextFeedId == s.nextFeedId
      && FeedTablesOnly(s, r.value)
  {
    var uid :- FindUserByEmail(s.users, email);
    var feed :- if feedId in s.feeds then Ok(s.feeds[feedId]) else Err(NotFoundFeed);
    if feed.authorId != uid then Err(NotFeedOwner)
    else Ok(s.(feeds := s.feeds[feedId := feed.(title := title, content := content)]))
  }

  /** `deleteFeed`: the author deletes every image of the feed (its storage
      object, then its row) and then the feed. */
  function DeleteFeed(s: Store, email: Email, feedId: FeedId): (r: Result<FeedDeletion, Failure>)
    ensures email !in s.users ==> r == Err(UnAuthorized)
    ensures email in s.users && feedId !in s.feeds ==> r == Err(NotFoundFeed)
    ensures email in s.users && feedId in s.feeds && s.feeds[feedId].authorId != s.users[email] ==>
      r == Err(NotFeedOwner)
    ensures email in s.users && feedId in s.feeds && s.feeds[feedId].authorId == s.users[email] ==>
      (r.Ok? <==> StorageKeys(ImagesOf(s.feedImages, feedId)).Ok?) &&
      (r.Err? ==> r.error == IndexOutOfBounds)
    ensures r.Ok? ==>
      && feedId in s.feeds
      && var t := r.value.store;
      && t.feeds == s.feeds - {feedId}
      && t.feedImages == WithoutImagesOf(s.feedImages, feedId)
      && StorageKeys(ImagesOf(s.feedImages, feedId)) == Ok(r.value.deletedKeys)
      && t.nextFeedId == s.nextFeedId
      && FeedTablesOnly(s, t)
  {
    var uid :- FindUserByEmail(s.users, email);
    var feed :- if feedId in s.feeds then Ok(s.feeds[feedId]) else Err(NotFoundFeed);
    if feed.authorId != uid then Err(NotFeedOwner)
    else
      var keys :- StorageKeys(ImagesOf(s.feedImages, feedId));
      Ok(FeedDeletion(s.(feeds := s.feeds - {feedId},
                         feedImages := WithoutImagesOf(s.feedImages, feedId)),
                      keys))
  }
}
