/** `POST /api/now-playing`, the older Spotify recorder: everything after the player request
    sits in a `try` whose `catch` swallows the failure, and the insert's result is never
    looked at. */
module NowPlayingRoute {
  import opened Wrappers
  import opened Values
  import opened Auth
  import opened Store
  import opened Images
  import opened OAuth
  import SpotifyRoute

  /** The player reply: its `ok` flag and its body, `None` when `json()` throws. */
  datatype PlayerReply = PlayerReply(ok: bool, body: Option<Json>)

  /** `item.album.images`: reading through a missing album throws, and a falsy value means
      no images; otherwise the list of images the reply is typed to hold. A list with a
      `null` entry makes `getBestImage` throw, which the `catch` swallows; every other value
      outside the reply type is treated the same way here, although the source's comparisons
      would not throw on it. */
  function AlbumImages(item: Json): (r: Result<Option<seq<Image>>>)
    ensures IsNullish(Get(item, "album")) ==> r.Err?
    ensures !IsNullish(Get(item, "album")) && !Truthy(Get(Get(item, "album"), "images")) ==> r == Ok(None)
    ensures r.Ok? && r.value.Some? ==>
      var j := Get(Get(item, "album"), "images");
      j.JArr? && |r.value.value| == |j.items|
      && forall i :: 0 <= i < |j.items| ==> SpotifyRoute.IsImage(j.items[i]) && r.value.value[i] == SpotifyRoute.ImageOf(j.items[i])
  {
    match Path(item, ["album", "images"])
    case Err(msg) => Err(msg)
    case Ok(j) =>
      if !Truthy(j) then Ok(None)
      else if SpotifyRoute.OptionalImages(j) then Ok(SpotifyRoute.ImagesOf(j))
      else Err("malformed images")
  }

  /** `map(item.artists, artist => artist.name)`: the names in response order; lodash maps a
      missing list to the empty one. */
  function ArtistNames(item: Json): (r: seq<Json>)
    ensures Get(item, "artists").JArr? ==>
      |r| == |Get(item, "artists").items|
      && forall i :: 0 <= i < |r| ==> r[i] == Get(Get(item, "artists").items[i], "name")
    ensures !Get(item, "artists").JArr? ==> r == []
  {
    var artists := Get(item, "artists");
    if artists.JArr? then seq(|artists.items|, i requires 0 <= i < |artists.items| => Get(artists.items[i], "name"))
    else []
  }

  /** The row inserted into `now_playing`. */
  function NowPlayingRecord(music: Json, images: Option<seq<Image>>): (r: seq<Field>)
    ensures Keys(r) == ["image", "name", "artists", "payload"]
    ensures r[0].value == (if GetBestImage(images).Some? then JStr(GetBestImage(images).value.url) else JUndefined)
    ensures r[2].value == JArr(ArtistNames(Get(music, "item"))) && r[3].value == music
  {
    var item := Get(music, "item");
    var image := GetBestImage(images);
    [ Field("image", if image.Some? then JStr(image.value.url) else JUndefined),
      Field("name", Get(item, "name")),
      Field("artists", JArr(ArtistNames(item))),
      Field("payload", music) ]
  }

  /** Whether the `try` block reaches the insert: the body parsed, is not `null`, something is
      playing, and its album images could be read. */
  predicate ReachesInsert(body: Option<Json>) {
    body.Some? && !IsNullish(body.value)
    && Truthy(Get(body.value, "is_playing")) && Truthy(Get(body.value, "item"))
    && AlbumImages(Get(body.value, "item")).Ok?
  }

  const NoToken := "No Spotify access token"
  const PlayerFailed := "Spotify currently playing request failed"

  /** The route. It calls the scoped key check of `utils/server.ts` without a scope and
      drops the 401 it returns, so the key never gates the run: whatever the header, the
      token and player requests go ahead, and once they succeed the answer is always 204. */
  method Post(authorization: Option<string>, tokenReply: Result<Json>,
              player: Result<PlayerReply>, table: AppendTable, now: string, insertFault: Option<string>)
    returns (out: Outcome)
    modifies table
    ensures out != Unauthorized
    ensures AccessToken(tokenReply, NoToken).Err? ==>
      out == Failed(AccessToken(tokenReply, NoToken).msg) && table.rows == old(table.rows)
    ensures AccessToken(tokenReply, NoToken).Ok? ==>
      (player.Err? ==> out == Failed(player.msg) && table.rows == old(table.rows))
      && (player.Ok? && !player.value.ok ==> out == Failed(PlayerFailed) && table.rows == old(table.rows))
      && (player.Ok? && player.value.ok ==> out == NoContent)
    ensures out == NoContent ==>
      var body := player.value.body;
      if ReachesInsert(body) && insertFault.None? then
        table.rows == old(table.rows)
          + [Stored(NowPlayingRecord(body.value, AlbumImages(Get(body.value, "item")).value), old(table.nextId), now)]
      else table.rows == old(table.rows)
  {
    var _ := ValidateWithoutScope(authorization);
    var token := AccessToken(tokenReply, NoToken);
    if token.Err? {
      return Failed(token.msg);
    }
    if player.Err? {
      return Failed(player.msg);
    }
    if !player.value.ok {
      return Failed(PlayerFailed);
    }
    var body := player.value.body;
    if body.Some? && !IsNullish(body.value) {
      var music := body.value;
      var item := Get(music, "item");
      if Truthy(Get(music, "is_playing")) && Truthy(item) {
        var images := AlbumImages(item);
        if images.Ok? {
          var _ := table.Insert(NowPlayingRecord(music, images.value), now, insertFault);
        }
      }
    }
    out := NoContent;
  }
}
