/** `POST /api/instagram`: collect every page of media, copy each post's images into the
    storage bucket, record the follower counts when they changed, and upsert one row per post.
    Every reply of the Graph API, the CDN and the storage service is a parameter. */
module InstagramRoute {
  import opened Wrappers
  import opened Values
  import opened Text
  import opened Casing
  import opened Auth
  import opened Store

  /** The media fields the route requests. A missing `media_url` is `None`. */
  datatype Media = Media(id: string, caption: Json, mediaUrl: Option<string>, mediaType: string,
                         timestamp: Json, likeCount: Json, commentsCount: Json, permalink: Json)

  /** One page of media and its `after` cursor, `None` when the reply has no paging. */
  datatype Page = Page(data: seq<Media>, after: Option<string>)

  /** The page-info reply: follower and follow counts, each possibly missing. */
  datatype PageInfo = PageInfo(followers: Option<int>, follows: Option<int>)

  /** `if (nextPage)`: an empty cursor does not continue. */
  predicate HasNext(p: Page) {
    p.after.Some? && p.after.value != ""
  }

  // ---------------------------------------------------------------------------------------
  // Paginated accumulation

  /** The media gathered after `page`, where `later[k]` is the reply to the k-th follow-up
      request. A failed follow-up ends the collection, and so does running out of replies. */
  function Rest(page: Page, later: seq<Result<Page>>, k: nat): seq<Media>
    decreases |later| - k
  {
    if HasNext(page) && k < |later| && later[k].Ok? then later[k].value.data + Rest(later[k].value, later, k + 1)
    else []
  }

  /** `fetchAllMedia`: the first request's failure propagates, later failures are swallowed. */
  function Collected(first: Result<Page>, later: seq<Result<Page>>): Result<seq<Media>> {
    if first.Err? then Err(first.msg) else Ok(first.value.data + Rest(first.value, later, 0))
  }

  /** The media of a run of pages, in order. */
  function Concat(pages: seq<Page>): seq<Media> {
    if pages == [] then [] else pages[0].data + Concat(pages[1..])
  }

  /** The pages actually read after `page`: `n` follow-ups, each answered and each but the
      last with a cursor, stopping at a missing cursor, a failure or the end of the replies. */
  predicate ReadsUntil(page: Page, later: seq<Result<Page>>, k: nat, n: nat) {
    k <= n <= |later|
    && (forall j :: k <= j < n ==> later[j].Ok?)
    && (k < n ==> HasNext(page))
    && (forall j :: k <= j < n - 1 ==> HasNext(later[j].value))
    && var last := if k == n then page else later[n - 1].value;
       (!HasNext(last) || n == |later| || later[n].Err?)
  }

  function Answered(later: seq<Result<Page>>, k: nat, n: nat): (ps: seq<Page>)
    requires k <= n <= |later| && forall j :: k <= j < n ==> later[j].Ok?
    ensures |ps| == n - k && forall j :: 0 <= j < n - k ==> ps[j] == later[k + j].value
  {
    seq(n - k, j requires 0 <= j < n - k => later[k + j].value)
  }

  lemma {:induction false} RestReads(page: Page, later: seq<Result<Page>>, k: nat, n: nat)
    requires ReadsUntil(page, later, k, n)
    ensures Rest(page, later, k) == Concat(Answered(later, k, n))
    decreases n - k
  {
    if k < n {
      var ps := Answered(later, k, n);
      RestReads(later[k].value, later, k + 1, n);
      assert ps[1..] == Answered(later, k + 1, n);
    }
  }

  /** The collected media are the concatenation, in order, of the first page and of every
      follow-up page read before a missing cursor or a failure; earlier pages survive a
      later failure. */
  lemma CollectedPages(first: Result<Page>, later: seq<Result<Page>>, n: nat)
    requires first.Ok? && ReadsUntil(first.value, later, 0, n)
    ensures Collected(first, later) == Ok(first.value.data + Concat(Answered(later, 0, n)))
  {
    RestReads(first.value, later, 0, n);
  }

  /** The accumulation loop. */
  method FetchAllMedia(first: Result<Page>, later: seq<Result<Page>>) returns (r: Result<seq<Media>>)
    ensures r == Collected(first, later)
  {
    if first.Err? {
      return Err(first.msg);
    }
    var all := first.value.data;
    var page := first.value;
    var k := 0;
    while HasNext(page) && k < |later| && later[k].Ok?
      invariant k <= |later|
      invariant all + Rest(page, later, k) == first.value.data + Rest(first.value, later, 0)
      decreases |later| - k
    {
      page := later[k].value;
      all := all + page.data;
      k := k + 1;
    }
    assert Rest(page, later, k) == [] && all + [] == all;
    r := Ok(all);
  }

  // ---------------------------------------------------------------------------------------
  // Image URLs of a post

  const CarouselAlbum := "CAROUSEL_ALBUM"

  /** `urls.filter(url => !!url)`: the present, non-empty URLs, in order. */
  function TruthyUrls(xs: seq<Option<string>>): (r: seq<string>)
    ensures |r| <= |xs|
    ensures forall u :: u in r <==> Some(u) in xs && u != ""
  {
    if xs == [] then []
    else if xs[0].Some? && xs[0].value != "" then [xs[0].value] + TruthyUrls(xs[1..])
    else TruthyUrls(xs[1..])
  }

  /** The cover image alone, if the post has a non-empty `media_url`. */
  function Cover(post: Media): (r: seq<string>)
    ensures |r| <= 1 && forall u :: u in r ==> u != ""
  {
    if post.mediaUrl.Some? && post.mediaUrl.value != "" then [post.mediaUrl.value] else []
  }

  /** The children's URLs, or `None` when the children request or any child's request
      failed (`Promise.all` rejects on the first failure). */
  function ChildUrls(children: Result<seq<Result<Option<string>>>>): (r: Option<seq<string>>)
    ensures r.Some? <==> children.Ok? && forall i :: 0 <= i < |children.value| ==> children.value[i].Ok?
  {
    if children.Err? || exists i :: 0 <= i < |children.value| && children.value[i].Err? then None
    else Some(TruthyUrls(seq(|children.value|, i requires 0 <= i < |children.value| => children.value[i].value)))
  }

  /** The URLs to copy for one post: a carousel's children, falling back to the cover image
      when the children yield none; any other post's cover image. */
  function ImageUrls(post: Media, children: Result<seq<Result<Option<string>>>>): (urls: seq<string>)
    ensures post.mediaType != CarouselAlbum ==> urls == Cover(post)
    ensures post.mediaType == CarouselAlbum && ChildUrls(children).Some? && ChildUrls(children).value != [] ==>
      urls == ChildUrls(children).value
    ensures post.mediaType == CarouselAlbum && (ChildUrls(children) == None || ChildUrls(children).value == []) ==>
      urls == Cover(post)
    ensures forall u :: u in urls ==> u != ""
  {
    if post.mediaType == CarouselAlbum then
      var childUrls := ChildUrls(children);
      if childUrls.Some? && childUrls.value != [] then childUrls.value else Cover(post)
    else Cover(post)
  }

  // ---------------------------------------------------------------------------------------
  // Storage

  /** `${postId}/${imageIndex}.jpg`. */
  function StoragePath(postId: string, index: nat): string {
    postId + "/" + Decimal(index) + ".jpg"
  }

  /** Within one post's folder, different indices name different objects. */
  lemma StoragePathInjective(postId: string, i: nat, j: nat)
    requires StoragePath(postId, i) == StoragePath(postId, j)
    ensures i == j
  {
    var p, q := StoragePath(postId, i), StoragePath(postId, j);
    var lo := |postId| + 1;
    assert |Decimal(i)| == |Decimal(j)|;
    assert Decimal(i) == p[lo..|p| - 4];
    assert Decimal(j) == q[lo..|q| - 4];
    NatToStringInjective(i, j, 10);
  }

  /** How the CDN answered the download of one image: a response that is ok and whose body
      was read, a response that is not ok, or a rejected `fetch` or `blob()`. */
  datatype Download = Downloaded | NotOk | Rejected(msg: string)

  /** The replies concerning one image: whether the storage listing answered (its error is
      ignored, and the route then downloads again), the download, and the upload's error. */
  datatype ImageReply = ImageReply(listed: bool, download: Download, uploadFault: Option<string>)

  /** The `instagram` storage bucket: object path to the URL its bytes were downloaded from. */
  class Bucket {
    var objects: map<string, string>

    constructor ()
      ensures objects == map[]
    {
      objects := map[];
    }

    /** `uploadImage`: an object the listing finds is reused without downloading; otherwise
        the image is downloaded and uploaded, overwriting any object of that path. A response
        that is not ok or an upload error yields no path; a rejected download propagates. */
    method UploadImage(postId: string, index: nat, url: string, reply: ImageReply)
      returns (r: Result<Option<string>>)
      modifies this
      ensures reply.listed && StoragePath(postId, index) in old(objects) ==>
        r == Ok(Some(StoragePath(postId, index))) && objects == old(objects)
      ensures !(reply.listed && StoragePath(postId, index) in old(objects)) ==>
        (reply.download.NotOk? ==> r == Ok(None) && objects == old(objects))
        && (reply.download.Rejected? ==> r == Err(reply.download.msg) && objects == old(objects))
        && (reply.download.Downloaded? && reply.uploadFault.Some? ==> r == Ok(None) && objects == old(objects))
        && (reply.download.Downloaded? && reply.uploadFault.None? ==>
              r == Ok(Some(StoragePath(postId, index)))
              && objects == old(objects)[StoragePath(postId, index) := url])
    {
      var path := StoragePath(postId, index);
      if reply.listed && path in objects {
        return Ok(Some(path));
      }
      match reply.download
      case Rejected(msg) =>
        return Err(msg);
      case NotOk =>
        return Ok(None);
      case Downloaded =>
        if reply.uploadFault.Some? {
          return Ok(None);
        }
        objects := objects[path := url];
        r := Ok(Some(path));
    }
  }

  /** Image `i` of a post is found by the listing among the objects stored before. */
  predicate Reuses(objects: map<string, string>, postId: string, i: nat, reply: nat -> ImageReply) {
    reply(i).listed && StoragePath(postId, i) in objects
  }

  /** Image `i` is downloaded and uploaded. */
  predicate Writes(objects: map<string, string>, postId: string, i: nat, reply: nat -> ImageReply) {
    !Reuses(objects, postId, i, reply) && reply(i).download.Downloaded? && reply(i).uploadFault.None?
  }

  /** Image `i` ends up with a path. */
  predicate Kept(objects: map<string, string>, postId: string, i: nat, reply: nat -> ImageReply) {
    Reuses(objects, postId, i, reply) || Writes(objects, postId, i, reply)
  }

  /** Image `i`'s download rejects, which fails the whole request. */
  predicate Rejects(objects: map<string, string>, postId: string, i: nat, reply: nat -> ImageReply) {
    !Reuses(objects, postId, i, reply) && reply(i).download.Rejected?
  }

  /** The first of the first `n` images whose download rejects, or `n` when none does. */
  function Rejection(objects: map<string, string>, postId: string, n: nat, reply: nat -> ImageReply): (r: nat)
    ensures r <= n
    ensures forall j :: 0 <= j < r ==> !Rejects(objects, postId, j, reply)
    ensures r < n ==> Rejects(objects, postId, r, reply)
  {
    if n == 0 then 0
    else
      var r := Rejection(objects, postId, n - 1, reply);
      if r < n - 1 || Rejects(objects, postId, n - 1, reply) then r else n
  }

  /** The paths of the first `n` images that were kept, in order (`filter(path !== null)`). */
  function KeptPaths(objects: map<string, string>, postId: string, n: nat, reply: nat -> ImageReply): seq<string>
  {
    if n == 0 then []
    else KeptPaths(objects, postId, n - 1, reply)
         + (if Kept(objects, postId, n - 1, reply) then [StoragePath(postId, n - 1)] else [])
  }

  /** A path is recorded exactly when it is the path of a kept image. */
  lemma {:induction false} KeptPathsMembers(objects: map<string, string>, postId: string, n: nat,
                                            reply: nat -> ImageReply, p: string)
    ensures p in KeptPaths(objects, postId, n, reply) <==>
      exists i :: 0 <= i < n && Kept(objects, postId, i, reply) && p == StoragePath(postId, i)
  {
    if n > 0 {
      KeptPathsMembers(objects, postId, n - 1, reply, p);
    }
  }

  /** The objects after uploading the first `n` images. */
  function Uploaded(objects: map<string, string>, postId: string, urls: seq<string>, n: nat,
                    reply: nat -> ImageReply): map<string, string>
    requires n <= |urls|
  {
    if n == 0 then objects
    else
      var m := Uploaded(objects, postId, urls, n - 1, reply);
      if Writes(objects, postId, n - 1, reply) then m[StoragePath(postId, n - 1) := urls[n - 1]] else m
  }

  /** Uploading earlier images of a post never creates the object of a later one. */
  lemma {:induction false} UploadedOthers(objects: map<string, string>, postId: string, urls: seq<string>, n: nat,
                                          reply: nat -> ImageReply, i: nat)
    requires n <= i && n <= |urls|
    ensures StoragePath(postId, i) in Uploaded(objects, postId, urls, n, reply) <==>
      StoragePath(postId, i) in objects
  {
    if n > 0 {
      UploadedOthers(objects, postId, urls, n - 1, reply, i);
      if StoragePath(postId, n - 1) == StoragePath(postId, i) {
        StoragePathInjective(postId, n - 1, i);
      }
    }
  }

  /** Every path recorded for a post names an object of the bucket. */
  lemma {:induction false} KeptPathsStored(objects: map<string, string>, postId: string, urls: seq<string>, n: nat,
                                           reply: nat -> ImageReply)
    requires n <= |urls|
    ensures forall p :: p in KeptPaths(objects, postId, n, reply) ==> p in Uploaded(objects, postId, urls, n, reply)
  {
    if n > 0 {
      KeptPathsStored(objects, postId, urls, n - 1, reply);
      UploadedGrows(objects, postId, urls, n - 1, reply);
    }
  }

  lemma UploadedGrows(objects: map<string, string>, postId: string, urls: seq<string>, n: nat,
                      reply: nat -> ImageReply)
    requires n < |urls|
    ensures Uploaded(objects, postId, urls, n, reply).Keys <= Uploaded(objects, postId, urls, n + 1, reply).Keys
    ensures StoragePath(postId, n) in objects ==> StoragePath(postId, n) in Uploaded(objects, postId, urls, n + 1, reply)
  {
    if StoragePath(postId, n) in objects {
      UploadedKeeps(objects, postId, urls, n + 1, reply);
    }
  }

  /** Uploading never removes an object. */
  lemma {:induction false} UploadedKeeps(objects: map<string, string>, postId: string, urls: seq<string>, n: nat,
                                         reply: nat -> ImageReply)
    requires n <= |urls|
    ensures objects.Keys <= Uploaded(objects, postId, urls, n, reply).Keys
  {
    if n > 0 {
      UploadedKeeps(objects, postId, urls, n - 1, reply);
    }
  }

  /** Copy one post's images, in order; `reply(i)` holds the answers concerning image `i`.
      Images before the first rejected download are copied, and the rejection fails the call. */
  method StoreImages(bucket: Bucket, postId: string, urls: seq<string>, reply: nat -> ImageReply)
    returns (r: Result<seq<string>>)
    modifies bucket
    ensures var k := Rejection(old(bucket.objects), postId, |urls|, reply);
      bucket.objects == Uploaded(old(bucket.objects), postId, urls, k, reply)
      && (k == |urls| ==> r == Ok(KeptPaths(old(bucket.objects), postId, |urls|, reply)))
      && (k < |urls| ==> r == Err(reply(k).download.msg))
  {
    var images := [];
    var i := 0;
    while i < |urls|
      invariant i <= |urls|
      invariant forall j :: 0 <= j < i ==> !Rejects(old(bucket.objects), postId, j, reply)
      invariant images == KeptPaths(old(bucket.objects), postId, i, reply)
      invariant bucket.objects == Uploaded(old(bucket.objects), postId, urls, i, reply)
    {
      UploadedOthers(old(bucket.objects), postId, urls, i, reply, i);
      var path := bucket.UploadImage(postId, i, urls[i], reply(i));
      if path.Err? {
        assert Rejects(old(bucket.objects), postId, i, reply) by {
          assert !Reuses(old(bucket.objects), postId, i, reply) && !reply(i).download.NotOk? && !reply(i).download.Downloaded?;
        }
        ghost var k := Rejection(old(bucket.objects), postId, |urls|, reply);
        assert k == i by {
          assert !(k < i) && !(i < k);
        }
        return Err(path.msg);
      }
      if path.value.Some? {
        images := images + [path.value.value];
      }
      i := i + 1;
    }
    r := Ok(images);
  }

  /** One post's image paths, or the rejection that fails the request. */
  function PostImages(objects: map<string, string>, post: Media, replies: Replies): Result<seq<string>> {
    var urls := ImageUrls(post, replies.children(post.id));
    var reply := replies.images(post.id);
    var k := Rejection(objects, post.id, |urls|, reply);
    if k < |urls| then Err(reply(k).download.msg) else Ok(KeptPaths(objects, post.id, |urls|, reply))
  }

  /** The bucket after one post's images. */
  function PostBucket(objects: map<string, string>, post: Media, replies: Replies): map<string, string> {
    var urls := ImageUrls(post, replies.children(post.id));
    var reply := replies.images(post.id);
    Uploaded(objects, post.id, urls, Rejection(objects, post.id, |urls|, reply), reply)
  }

  /** `images` followed by the paths of the remaining posts, unless those fail. */
  function After(images: seq<seq<string>>, rest: Result<seq<seq<string>>>): Result<seq<seq<string>>> {
    if rest.Err? then rest else Ok(images + rest.value)
  }

  lemma AfterNothing(rest: Result<seq<seq<string>>>)
    ensures After([], rest) == rest
  {
    if rest.Ok? {
      assert [] + rest.value == rest.value;
    }
  }

  /** Every post's image paths, post by post, or the first rejection. */
  function ImagesOf(objects: map<string, string>, media: seq<Media>, replies: Replies): (r: Result<seq<seq<string>>>)
    ensures r.Ok? ==> |r.value| == |media|
    decreases |media|
  {
    if media == [] then Ok([])
    else
      var here := PostImages(objects, media[0], replies);
      if here.Err? then Err(here.msg)
      else After([here.value], ImagesOf(PostBucket(objects, media[0], replies), media[1..], replies))
  }

  /** The bucket after copying the posts' images, up to and including the post that fails. */
  function BucketOf(objects: map<string, string>, media: seq<Media>, replies: Replies): map<string, string>
    decreases |media|
  {
    if media == [] then objects
    else if PostImages(objects, media[0], replies).Err? then PostBucket(objects, media[0], replies)
    else BucketOf(PostBucket(objects, media[0], replies), media[1..], replies)
  }

  /** Copying images never removes an object. */
  lemma {:induction false} BucketOfKeeps(objects: map<string, string>, media: seq<Media>, replies: Replies)
    ensures objects.Keys <= BucketOf(objects, media, replies).Keys
    decreases |media|
  {
    if media != [] {
      var post := media[0];
      var urls := ImageUrls(post, replies.children(post.id));
      UploadedKeeps(objects, post.id, urls, Rejection(objects, post.id, |urls|, replies.images(post.id)), replies.images(post.id));
      if PostImages(objects, post, replies).Ok? {
        BucketOfKeeps(PostBucket(objects, post, replies), media[1..], replies);
      }
    }
  }

  /** Every image path written to a post row names an object of the bucket. */
  lemma {:induction false} ImagesStored(objects: map<string, string>, media: seq<Media>, replies: Replies)
    requires ImagesOf(objects, media, replies).Ok?
    ensures forall i, p :: 0 <= i < |media| && p in ImagesOf(objects, media, replies).value[i] ==>
      p in BucketOf(objects, media, replies)
    decreases |media|
  {
    if media != [] {
      var post := media[0];
      var urls := ImageUrls(post, replies.children(post.id));
      var next := PostBucket(objects, post, replies);
      var all := ImagesOf(objects, media, replies).value;
      var rest := ImagesOf(next, media[1..], replies);
      assert all == [PostImages(objects, post, replies).value] + rest.value;
      KeptPathsStored(objects, post.id, urls, |urls|, replies.images(post.id));
      BucketOfKeeps(next, media[1..], replies);
      ImagesStored(next, media[1..], replies);
      forall i, p | 0 <= i < |media| && p in all[i] ensures p in BucketOf(objects, media, replies) {
        if i > 0 {
          assert all[i] == rest.value[i - 1] && media[1..][i - 1] == media[i];
        }
      }
    }
  }

  // ---------------------------------------------------------------------------------------
  // Follower counts

  const FollowsSelect := "followerCount, followingCount"

  /** The select list is `followerCount` and ` followingCount` joined by `,`; trimmed, the
      parts are the record's two keys, so `PairSelects` applies to it. */
  lemma FollowsColumns(s: string)
    requires s == FollowsSelect
    ensures s == "followerCount" + [','] + " followingCount"
  {
  }

  lemma FollowerClean(c: string)
    requires c == "followerCount"
    ensures CleanColumn(c)
  {
    FollowerChars(c);
    FollowerTrimmed(c);
  }

  lemma FollowerChars(c: string)
    requires c == "followerCount"
    ensures ',' !in c && '_' !in c
  {
  }

  lemma FollowerTrimmed(c: string)
    requires c == "followerCount"
    ensures Trim(c) == c
  {
    TrimClean(c);
  }

  lemma FollowingChars(c: string)
    requires c == " followingCount"
    ensures ',' !in c && '_' !in c
  {
  }

  /** The space after the comma is trimmed away. */
  lemma FollowingTrimmed(c: string)
    requires c == " followingCount"
    ensures Trim(c) == c[1..] && c[1..] == "followingCount"
  {
    var rest := "followingCount";
    assert c == [' '] + rest;
    TrimLeadingSpace(' ', rest);
  }

  /** The follows select list reads back the follows record. */
  lemma FollowsSelectsRecord(followers: int, following: int)
    ensures Selects(FollowsSelect, FollowsRecord(followers, following))
  {
    var p, q, r := "followerCount", " followingCount", "followingCount";
    FollowsColumns(FollowsSelect);
    FollowerChars(p);
    FollowerTrimmed(p);
    FollowingChars(q);
    FollowingTrimmed(q);
    FollowsKeys(p, r);
    PairSelects(p, q, Field(p, JNum(followers)), Field(r, JNum(following)));
  }

  /** The two keys differ and hold no `_`. */
  lemma FollowsKeys(p: string, r: string)
    requires p == "followerCount" && r == "followingCount"
    ensures p != r && '_' !in r
  {
    assert p[6] == 'e' && r[6] == 'i';
  }

  /** Once the counts are written, the same counts compare unchanged: the next run writes
      nothing until a count moves. */
  lemma FollowsSettled(rows: seq<Row>, id: nat, now: string, followers: int, following: int)
    ensures !CountsChanged(LatestOf(rows + [Stored(FollowsRecord(followers, following), id, now)], FollowsSelect), followers, following)
  {
    var record := FollowsRecord(followers, following);
    FollowsSelectsRecord(followers, following);
    FollowsPlain(followers, following);
    CountsSettled(rows, id, now, FollowsSelect, record);
    assert record[0].key == "followerCount" && record[1].key == "followingCount";
  }

  /** The follows record holds two numbers and no `undefined`. */
  lemma FollowsPlain(followers: int, following: int)
    ensures Plain(JObj(FollowsRecord(followers, following)))
  {
    var record := FollowsRecord(followers, following);
    assert record[0].value == JNum(followers) && record[1].value == JNum(following);
  }

  /** The record written to `instagram_follows`. */
  function FollowsRecord(followers: int, following: int): seq<Field> {
    [Field("followerCount", JNum(followers)), Field("followingCount", JNum(following))]
  }

  /** `followsData?.followerCount !== followerCount || followsData?.followingCount !== followingCount`. */
  predicate CountsChanged(latest: Json, followers: int, following: int) {
    Get(latest, "followerCount") != JNum(followers) || Get(latest, "followingCount") != JNum(following)
  }

  /** An empty table always takes the first counts. */
  lemma CountsChangedOnEmpty(followers: int, following: int)
    ensures CountsChanged(LatestOf([], FollowsSelect), followers, following)
  {
  }

  /** Once a record without `undefined` is written, a select list that reads its fields back
      finds each of them in the newest row; for the follows record, the same counts then compare unchanged. */
  lemma CountsSettled(rows: seq<Row>, id: nat, now: string, select: string, record: seq<Field>)
    requires Selects(select, record) && Plain(JObj(record))
    ensures forall i :: 0 <= i < |record| ==>
      Get(LatestOf(rows + [Stored(record, id, now)], select), record[i].key) == record[i].value
  {
    var row := Stored(record, id, now);
    assert (rows + [row])[|rows + [row]| - 1] == row;
    assert LatestOf(rows + [row], select) == View(row, select);
    ReadBackStored(record, id, now, select);
    forall i | 0 <= i < |record| ensures Lookup(record, record[i].key) == record[i].value {
      LookupAt(record, i);
    }
  }

  /** The follows step: select the newest counts and write when either differs. The upsert
      carries no id, so it adds a row like an insert. */
  method RecordFollows(follows: AppendTable, followers: int, following: int, now: string,
                       selectFault: Option<string>, insertFault: Option<string>)
    returns (r: Result<()>)
    modifies follows
    ensures selectFault.Some? ==> r == Err(selectFault.value) && follows.rows == old(follows.rows)
    ensures selectFault.None? && !CountsChanged(old(follows.Latest(FollowsSelect)), followers, following) ==>
      r == Ok(()) && follows.rows == old(follows.rows)
    ensures selectFault.None? && CountsChanged(old(follows.Latest(FollowsSelect)), followers, following) ==>
      (insertFault.Some? ==> r == Err(insertFault.value) && follows.rows == old(follows.rows))
      && (insertFault.None? ==>
            r == Ok(())
            && follows.rows == old(follows.rows) + [Stored(FollowsRecord(followers, following), old(follows.nextId), now)])
  {
    var latest := follows.SelectLatest(FollowsSelect, selectFault);
    if latest.Err? {
      return Err(latest.msg);
    }
    if CountsChanged(latest.value, followers, following) {
      var written := follows.Insert(FollowsRecord(followers, following), now, insertFault);
      if written.Err? {
        return Err(written.msg);
      }
    }
    r := Ok(());
  }

  // ---------------------------------------------------------------------------------------
  // Post rows

  /** One `instagram` row per post. */
  function PostRow(post: Media, images: seq<string>): (r: seq<Field>)
    ensures |r| == 8 && r[0] == Field("id", JStr(post.id))
    ensures r[1].value == post.timestamp && r[2].value == JStr(post.mediaType) && r[3].value == post.caption
    ensures r[4].value.JArr? && |r[4].value.items| == |images|
    ensures forall i :: 0 <= i < |images| ==> r[4].value.items[i] == JStr(images[i])
    ensures r[5].value == post.likeCount && r[6].value == post.commentsCount && r[7].value == post.permalink
  {
    [ Field("id", JStr(post.id)),
      Field("postedAt", post.timestamp),
      Field("mediaType", JStr(post.mediaType)),
      Field("caption", post.caption),
      Field("images", JArr(seq(|images|, i requires 0 <= i < |images| => JStr(images[i])))),
      Field("likeCount", post.likeCount),
      Field("commentCount", post.commentsCount),
      Field("url", post.permalink) ]
  }

  lemma PostKeys(post: Media, images: seq<string>)
    ensures Keys(PostRow(post, images)) ==
      ["id", "postedAt", "mediaType", "caption", "images", "likeCount", "commentCount", "url"]
  {
  }

  lemma PostKeysClean(post: Media, images: seq<string>)
    ensures DistinctKeys(PostRow(post, images))
    ensures forall j :: 0 <= j < 8 ==> '_' !in PostRow(post, images)[j].key
  {
    var r := PostRow(post, images);
    PostKeys(post, images);
    // the lengths are 2, 8, 9, 7, 6, 9, 12 and 3; the two of length 9 start differently
    assert r[2].key[0] == 'm' && r[5].key[0] == 'l';
  }

  /** A stored post row's `id` column is the post's id. */
  lemma PostIdColumn(post: Media, images: seq<string>)
    ensures Column(KeysToSnakeCase(JObj(PostRow(post, images))).fields, "id") == JStr(post.id)
  {
    var record := PostRow(post, images);
    PostKeysClean(post, images);
    SnakeColumn(record, 0);
    IdSnake(record[0].key);
  }

  /** Upserting the rows of posts with distinct ids stores each one's row under its id, leaves
      every other post's row untouched, and upserting the same rows again changes nothing. */
  lemma PostsUpserted(table: map<Json, Row>, media: seq<Media>, images: seq<seq<string>>)
    requires |images| == |media| && DistinctMedia(media)
    ensures var rows := SnakeRows(PostRows(media, images));
      var after := UpsertAll(table, rows, "id");
      (forall i :: 0 <= i < |media| ==> JStr(media[i].id) in after && after[JStr(media[i].id)] == rows[i])
      && (forall k :: k in table && (forall i :: 0 <= i < |media| ==> JStr(media[i].id) != k) ==>
            k in after && after[k] == table[k])
      && UpsertAll(after, rows, "id") == after
  {
    var rows := SnakeRows(PostRows(media, images));
    forall i | 0 <= i < |media| ensures Column(rows[i], "id") == JStr(media[i].id) {
      PostIdColumn(media[i], images[i]);
    }
    UpsertAllSpec(table, rows, "id");
    UpsertAllIdempotent(table, rows, "id");
  }

  /** No two posts share an id. */
  predicate DistinctMedia(media: seq<Media>) {
    forall i, j :: 0 <= i < j < |media| ==> media[i].id != media[j].id
  }

  /** The post rows of a batch repeat no key exactly when its posts repeat no id. */
  lemma PostRowsDistinct(media: seq<Media>, images: seq<seq<string>>)
    requires |images| == |media|
    ensures KeysDistinct(SnakeRows(PostRows(media, images)), "id") <==> DistinctMedia(media)
  {
    var rows := SnakeRows(PostRows(media, images));
    forall i | 0 <= i < |media| ensures Column(rows[i], "id") == JStr(media[i].id) {
      PostIdColumn(media[i], images[i]);
    }
  }

  function PostRows(media: seq<Media>, images: seq<seq<string>>): (r: seq<seq<Field>>)
    requires |images| == |media|
    ensures |r| == |media| && forall i :: 0 <= i < |media| ==> r[i] == PostRow(media[i], images[i])
  {
    seq(|media|, i requires 0 <= i < |media| => PostRow(media[i], images[i]))
  }

  // ---------------------------------------------------------------------------------------
  // The route

  /** Everything the outside world answers during one run. `images(id)(i)` holds the
      answers concerning image `i` of post `id`. */
  datatype Replies = Replies(
    pageInfo: Result<PageInfo>,
    first: Result<Page>,
    later: seq<Result<Page>>,
    children: string -> Result<seq<Result<Option<string>>>>,
    images: string -> nat -> ImageReply,
    followsSelectFault: Option<string>,
    followsInsertFault: Option<string>,
    postsFault: Option<string>)

  /** Adding one more post's paths to those already gathered. */
  lemma AfterStep(images: seq<seq<string>>, here: seq<string>, rest: Result<seq<seq<string>>>)
    ensures After(images, After([here], rest)) == After(images + [here], rest)
  {
    if rest.Ok? {
      assert images + ([here] + rest.value) == images + [here] + rest.value;
    }
  }

  /** Post `i` and the posts after it: its own images and bucket, then the rest. */
  lemma ImagesOfStep(objects: map<string, string>, media: seq<Media>, i: nat, replies: Replies)
    requires i < |media|
    ensures var here := PostImages(objects, media[i], replies);
      var next := PostBucket(objects, media[i], replies);
      (here.Err? ==> ImagesOf(objects, media[i..], replies) == Err(here.msg)
                     && BucketOf(objects, media[i..], replies) == next)
      && (here.Ok? ==> ImagesOf(objects, media[i..], replies) == After([here.value], ImagesOf(next, media[i + 1..], replies))
                       && BucketOf(objects, media[i..], replies) == BucketOf(next, media[i + 1..], replies))
  {
    assert media[i..][0] == media[i] && media[i..][1..] == media[i + 1..];
  }

  /** The posts' images, post after post, stopping at the first rejected download. */
  method StorePosts(bucket: Bucket, media: seq<Media>, replies: Replies) returns (r: Result<seq<seq<string>>>)
    modifies bucket
    ensures r == ImagesOf(old(bucket.objects), media, replies)
    ensures bucket.objects == BucketOf(old(bucket.objects), media, replies)
  {
    var images := [];
    assert media[0..] == media;
    AfterNothing(ImagesOf(bucket.objects, media, replies));
    var i := 0;
    while i < |media|
      invariant i <= |media| && |images| == i
      invariant ImagesOf(old(bucket.objects), media, replies) == After(images, ImagesOf(bucket.objects, media[i..], replies))
      invariant BucketOf(old(bucket.objects), media, replies) == BucketOf(bucket.objects, media[i..], replies)
    {
      var post := media[i];
      ghost var before := bucket.objects;
      var urls := ImageUrls(post, replies.children(post.id));
      var kept := StoreImages(bucket, post.id, urls, replies.images(post.id));
      assert kept == PostImages(before, post, replies) && bucket.objects == PostBucket(before, post, replies);
      ImagesOfStep(before, media, i, replies);
      if kept.Err? {
        return Err(kept.msg);
      }
      AfterStep(images, kept.value, ImagesOf(bucket.objects, media[i + 1..], replies));
      images := images + [kept.value];
      i := i + 1;
    }
    assert media[i..] == [] && images + [] == images;
    r := Ok(images);
  }

  /** The route. Besides the response it hands back the media collected and each post's
      stored image paths, which is what the post upsert writes. The posts are handled one
      after another, each post's images in order. */
  method Post(keys: Secrets, authorization: Option<string>, replies: Replies, now: string,
              bucket: Bucket, follows: AppendTable, posts: KeyedTable)
    returns (out: Outcome, media: seq<Media>, images: seq<seq<string>>)
    requires posts.pk == "id"
    modifies bucket, follows, posts
    ensures out == Unauthorized <==> ValidatePresharedKey(keys, Cron, authorization) == Some(Unauthorized)
    ensures out == Unauthorized || replies.pageInfo.Err? || replies.first.Err? ==>
      bucket.objects == old(bucket.objects) && follows.rows == old(follows.rows) && posts.rows == old(posts.rows)
    ensures out != Unauthorized && replies.pageInfo.Err? ==> out == Failed(replies.pageInfo.msg)
    ensures out != Unauthorized && replies.pageInfo.Ok? && replies.first.Err? ==> out == Failed(replies.first.msg)
    // the media and the images
    ensures out != Unauthorized && replies.pageInfo.Ok? && replies.first.Ok? ==>
      Collected(replies.first, replies.later) == Ok(media)
      && bucket.objects == BucketOf(old(bucket.objects), media, replies)
    ensures out != Unauthorized && replies.pageInfo.Ok? && replies.first.Ok?
            && ImagesOf(old(bucket.objects), media, replies).Err? ==>
      out == Failed(ImagesOf(old(bucket.objects), media, replies).msg)
      && follows.rows == old(follows.rows) && posts.rows == old(posts.rows)
    ensures out != Unauthorized && replies.pageInfo.Ok? && replies.first.Ok?
            && ImagesOf(old(bucket.objects), media, replies).Ok? ==>
      images == ImagesOf(old(bucket.objects), media, replies).value
    // the follower counts, a missing count being 0
    ensures out != Unauthorized && replies.pageInfo.Ok? && replies.first.Ok?
            && ImagesOf(old(bucket.objects), media, replies).Ok? ==>
      var followers := replies.pageInfo.value.followers.GetOr(0);
      var following := replies.pageInfo.value.follows.GetOr(0);
      var changed := CountsChanged(old(follows.Latest(FollowsSelect)), followers, following);
      (replies.followsSelectFault.Some? ==>
         out == Failed(replies.followsSelectFault.value)
         && follows.rows == old(follows.rows) && posts.rows == old(posts.rows))
      && (replies.followsSelectFault.None? && !changed ==> follows.rows == old(follows.rows))
      && (replies.followsSelectFault.None? && changed && replies.followsInsertFault.Some? ==>
            out == Failed(replies.followsInsertFault.value)
            && follows.rows == old(follows.rows) && posts.rows == old(posts.rows))
      && (replies.followsSelectFault.None? && changed && replies.followsInsertFault.None? ==>
            follows.rows == old(follows.rows) + [Stored(FollowsRecord(followers, following), old(follows.nextId), now)])
      // the post rows
      && (replies.followsSelectFault.None? && (!changed || replies.followsInsertFault.None?) ==>
            |images| == |media|
            && (replies.postsFault.Some? ==> out == Failed(replies.postsFault.value) && posts.rows == old(posts.rows))
            && (replies.postsFault.None? && !DistinctMedia(media) ==>
                  out == Failed(ConflictTwice) && posts.rows == old(posts.rows))
            && (replies.postsFault.None? && DistinctMedia(media) ==>
                  out == NoContent
                  && posts.rows == UpsertAll(old(posts.rows), SnakeRows(PostRows(media, images)), "id")))
  {
    media, images := [], [];
    var auth := ValidatePresharedKey(keys, Cron, authorization);
    if auth.Some? {
      return auth.value, media, images;
    }
    if replies.pageInfo.Err? {
      return Failed(replies.pageInfo.msg), media, images;
    }
    var info := replies.pageInfo.value;
    var collected := FetchAllMedia(replies.first, replies.later);
    if collected.Err? {
      return Failed(collected.msg), media, images;
    }
    media := collected.value;
    var stored := StorePosts(bucket, media, replies);
    if stored.Err? {
      return Failed(stored.msg), media, images;
    }
    images := stored.value;
    var followers := info.followers.GetOr(0);
    var following := info.follows.GetOr(0);
    var recorded := RecordFollows(follows, followers, following, now, replies.followsSelectFault, replies.followsInsertFault);
    if recorded.Err? {
      return Failed(recorded.msg), media, images;
    }
    PostRowsDistinct(media, images);
    var upserted := posts.Upsert(PostRows(media, images), replies.postsFault);
    if upserted.Err? {
      return Failed(upserted.msg), media, images;
    }
    out := NoContent;
  }
}
