/** The refresh-token exchange the Spotify, now-playing and Strava routes start with: the
    retried token request's parsed body, destructured for `access_token`. */
module OAuth {
  import opened Wrappers
  import opened Values

  /** `const { access_token } = await tokenRes.json(); if (!access_token) throw ...`.
      `reply` is the body, or the failure of the request or of parsing it; destructuring a
      `null` body throws a `TypeError`. */
  function AccessToken(reply: Result<Json>, missing: string): (r: Result<Json>)
    ensures r.Ok? <==> reply.Ok? && Truthy(Get(reply.value, "access_token"))
    ensures r.Ok? ==> r.value == Get(reply.value, "access_token")
    ensures reply.Err? ==> r == Err(reply.msg)
    ensures reply.Ok? && !IsNullish(reply.value) && !Truthy(Get(reply.value, "access_token")) ==> r == Err(missing)
  {
    if reply.Err? then Err(reply.msg)
    else
      match Path(reply.value, ["access_token"])
      case Err(msg) => Err(msg)
      case Ok(token) => if Truthy(token) then Ok(token) else Err(missing)
  }
}
