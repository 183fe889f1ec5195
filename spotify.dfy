/** `POST /api/spotify`: record what is playing, a song or a podcast episode, on every run
    that finds something playing. The reply shapes are checked like the route's schemas. */
module SpotifyRoute {
  import opened Wrappers
  import opened Values
  import opened Auth
  import opened Store
  import opened Images
  import opened OAuth

  // ---------------------------------------------------------------------------------------
  // Reply shapes

  /** `ImageSchema`: numeric width and height and a string url. */
  predicate IsImage(j: Json) {
    Get(j, "width").JNum? && Get(j, "height").JNum? && Get(j, "url").JStr?
  }

  function ImageOf(j: Json): Image
    requires IsImage(j)
  {
    Image(Get(j, "width").n, Get(j, "height").n, Get(j, "url").s)
  }

  /** `z.array(ImageSchema).optional()`. */
  predicate OptionalImages(j: Json) {
    j.JUndefined? || (j.JArr? && forall i :: 0 <= i < |j.items| ==> IsImage(j.items[i]))
  }

  function ImagesOf(j: Json): (r: Option<seq<Image>>)
    requires OptionalImages(j)
    ensures r.None? <==> j.JUndefined?
    ensures r.Some? ==> |r.value| == |j.items| && forall i :: 0 <= i < |j.items| ==> r.value[i] == ImageOf(j.items[i])
  {
    if j.JUndefined? then None
    else Some(seq(|j.items|, i requires 0 <= i < |j.items| => ImageOf(j.items[i])))
  }

  /** An object with string `id` and `name`, as artists, albums and shows are. */
  predicate IsNamed(j: Json) {
    Get(j, "id").JStr? && Get(j, "name").JStr?
  }

  /** `TrackSchema`. */
  predicate IsTrack(item: Json) {
    IsNamed(item)
    && Get(item, "artists").JArr?
    && (forall i :: 0 <= i < |Get(item, "artists").items| ==> IsNamed(Get(item, "artists").items[i]))
    && IsNamed(Get(item, "album"))
    && OptionalImages(Get(Get(item, "album"), "images"))
  }

  /** `EpisodeSchema`. */
  predicate IsEpisode(item: Json) {
    IsNamed(item)
    && OptionalImages(Get(item, "images"))
    && IsNamed(Get(item, "show"))
    && OptionalImages(Get(Get(item, "show"), "images"))
  }

  function NameOf(j: Json): string
    requires IsNamed(j)
  {
    Get(j, "name").s
  }

  /** `map(item.artists, artist => artist.name)`. */
  function ArtistNames(artists: seq<Json>): (r: seq<string>)
    requires forall i :: 0 <= i < |artists| ==> IsNamed(artists[i])
    ensures |r| == |artists| && forall i :: 0 <= i < |artists| ==> r[i] == NameOf(artists[i])
  {
    seq(|artists|, i requires 0 <= i < |artists| => NameOf(artists[i]))
  }

  datatype Sanitized = Sanitized(mediaType: string, images: Option<seq<Image>>, credits: seq<string>)

  const Malformed := "Unknown or malformed currently playing type"

  /** `sanitize`: a track becomes a song by its artists, an episode a podcast by its show;
      anything else throws. */
  function Sanitize(currentlyPlaying: Json): (r: Result<Sanitized>)
    ensures var kind := Get(currentlyPlaying, "currently_playing_type");
      var item := Get(currentlyPlaying, "item");
      && (r.Ok? <==> (kind == JStr("track") && IsTrack(item)) || (kind == JStr("episode") && IsEpisode(item)))
      && (r.Err? ==> r.msg == Malformed)
      && (r.Ok? && kind == JStr("track") ==>
            r.value.mediaType == "song"
            && r.value.images == ImagesOf(Get(Get(item, "album"), "images"))
            && |r.value.credits| == |Get(item, "artists").items|
            && forall i :: 0 <= i < |r.value.credits| ==> r.value.credits[i] == NameOf(Get(item, "artists").items[i]))
      && (r.Ok? && kind == JStr("episode") ==>
            r.value.mediaType == "podcast"
            && r.value.credits == [NameOf(Get(item, "show"))]
            && (Get(item, "images").JArr? ==> r.value.images == ImagesOf(Get(item, "images")))
            && (Get(item, "images").JUndefined? ==> r.value.images == ImagesOf(Get(Get(item, "show"), "images"))))
  {
    var kind := Get(currentlyPlaying, "currently_playing_type");
    var item := Get(currentlyPlaying, "item");
    if kind == JStr("track") && IsTrack(item) then
      Ok(Sanitized("song", ImagesOf(Get(Get(item, "album"), "images")), ArtistNames(Get(item, "artists").items)))
    else if kind == JStr("episode") && IsEpisode(item) then
      var images := if Truthy(Get(item, "images")) then ImagesOf(Get(item, "images"))
                    else ImagesOf(Get(Get(item, "show"), "images"));
      Ok(Sanitized("podcast", images, [NameOf(Get(item, "show"))]))
    else Err(Malformed)
  }

  // ---------------------------------------------------------------------------------------
  // The route

  /** The player reply: its `ok` flag and its body, `None` when it does not parse (an empty
      204 body when nothing is playing). */
  datatype PlayerReply = PlayerReply(ok: bool, body: Option<Json>)

  /** `isPlaying && item && currentlyPlaying`. */
  predicate Playing(body: Option<Json>) {
    body.Some? && Truthy(body.value) && Truthy(Get(body.value, "is_playing")) && Truthy(Get(body.value, "item"))
  }

  /** The row inserted into `spotify`; a missing best image leaves `image` undefined. */
  function SpotifyRecord(s: Sanitized, currentlyPlaying: Json): (r: seq<Field>)
    ensures Keys(r) == ["mediaType", "image", "name", "by", "payload"]
    ensures r[1].value == (if GetBestImage(s.images).Some? then JStr(GetBestImage(s.images).value.url) else JUndefined)
    ensures r[3].value == JArr(seq(|s.credits|, i requires 0 <= i < |s.credits| => JStr(s.credits[i]))) && r[4].value == currentlyPlaying
  {
    var image := GetBestImage(s.images);
    [ Field("mediaType", JStr(s.mediaType)),
      Field("image", if image.Some? then JStr(image.value.url) else JUndefined),
      Field("name", Get(Get(currentlyPlaying, "item"), "name")),
      Field("by", JArr(seq(|s.credits|, i requires 0 <= i < |s.credits| => JStr(s.credits[i])))),
      Field("payload", currentlyPlaying) ]
  }

  const NoToken := "No Spotify access token"
  const PlayerFailed := "Spotify currently playing request failed"

  /** The route. The 401 of the key check is discarded. `tokenReply` and `player` are what the
      retried requests finally produced. There is no deduplication: every run that finds
      something playing inserts one row. */
  method Post(keys: Secrets, authorization: Option<string>, tokenReply: Result<Json>, player: Result<PlayerReply>,
              table: AppendTable, now: string, insertFault: Option<string>)
    returns (out: Outcome)
    modifies table
    ensures out != Unauthorized
    ensures AccessToken(tokenReply, NoToken).Err? ==>
      out == Failed(AccessToken(tokenReply, NoToken).msg) && table.rows == old(table.rows)
    ensures AccessToken(tokenReply, NoToken).Ok? && player.Err? ==> out == Failed(player.msg) && table.rows == old(table.rows)
    ensures AccessToken(tokenReply, NoToken).Ok? && player.Ok? ==>
      var reply := player.value;
      (!reply.ok ==> out == Failed(PlayerFailed) && table.rows == old(table.rows))
      && (reply.ok && !Playing(reply.body) ==> out == NoContent && table.rows == old(table.rows))
      && (reply.ok && Playing(reply.body) && Sanitize(reply.body.value).Err? ==>
            out == Failed(Malformed) && table.rows == old(table.rows))
      && (reply.ok && Playing(reply.body) && Sanitize(reply.body.value).Ok? ==>
            var record := SpotifyRecord(Sanitize(reply.body.value).value, reply.body.value);
            (insertFault.Some? ==> out == Failed(insertFault.value) && table.rows == old(table.rows))
            && (insertFault.None? ==> out == NoContent && table.rows == old(table.rows) + [Stored(record, old(table.nextId), now)]))
  {
    var _ := ValidatePresharedKey(keys, Cron, authorization);
    var token := AccessToken(tokenReply, NoToken);
    if token.Err? {
      return Failed(token.msg);
    }
    if player.Err? {
      return Failed(player.msg);
    }
    if !player.value.ok {
      return Failed(PlayerFailed);
    }
    var body := player.value.body;
    if Playing(body) {
      var sanitized := Sanitize(body.value);
      if sanitized.Err? {
        return Failed(sanitized.msg);
      }
      var inserted := table.Insert(SpotifyRecord(sanitized.value, body.value), now, insertFault);
      if inserted.Err? {
        return Failed(inserted.msg);
      }
    }
    out := NoContent;
  }
}
