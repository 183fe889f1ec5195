/** The Spotify card of the older site: the artists line and whether the last track counts as
    still playing. */
module PlayingCard {
  import opened Wrappers
  import opened Text

  /** `joinArtists`: nothing for a missing or empty list, the one artist alone, two joined by
      `" & "`, and otherwise all but the last joined by `", "`, then `", & "` and the last. */
  function JoinArtists(artists: Option<seq<string>>): (r: Option<string>)
    ensures r.None? <==> artists.None? || |artists.value| == 0
    ensures r.Some? && |artists.value| == 1 ==> r.value == artists.value[0]
  {
    match artists
    case None => None
    case Some(names) =>
      if |names| == 0 then None
      else if |names| == 1 then Some(names[0])
      else if |names| == 2 then Some(Join(names, " & "))
      else Some(Join(names[..|names| - 1], ", ") + ", & " + names[|names| - 1])
  }

  /** The parts after the first, each with `prefix` in front. */
  function Prefixed(xs: seq<string>, prefix: string): (r: seq<string>)
    ensures |r| == |xs|
    ensures forall k :: 0 <= k < |xs| ==> r[k] == (if k == 0 then xs[0] else prefix + xs[k])
  {
    seq(|xs|, k requires 0 <= k < |xs| => if k == 0 then xs[0] else prefix + xs[k])
  }

  lemma JoinFirst(a: string, ys: seq<string>, sep: string)
    requires |ys| >= 1
    ensures Join([a + ys[0]] + ys[1..], sep) == a + Join(ys, sep)
  {
    var zs := [a + ys[0]] + ys[1..];
    if |ys| > 1 {
      assert zs[1..] == ys[1..];
    }
  }

  /** A separator that starts with `c` is `c` followed by the rest of it in front of every
      later part. */
  lemma {:induction false} JoinPrefixed(xs: seq<string>, c: char, rest: string)
    ensures Join(xs, [c] + rest) == Join(Prefixed(xs, rest), [c])
  {
    if |xs| > 1 {
      var tail := xs[1..];
      JoinPrefixed(tail, c, rest);
      var p, y := Prefixed(xs, rest), Prefixed(tail, rest);
      assert p[1..] == [rest + y[0]] + y[1..];
      JoinFirst(rest, y, [c]);
      assert Join(xs, [c] + rest) == xs[0] + ([c] + rest) + Join(tail, [c] + rest);
    }
  }

  /** Three or more artists written with the serial comma. */
  lemma SerialCommaJoin(names: seq<string>)
    requires |names| >= 3
    ensures Join(names[..|names| - 1], ", ") + ", & " + names[|names| - 1]
      == Join(names[..|names| - 1] + ["& " + names[|names| - 1]], ", ")
  {
    var init, last := names[..|names| - 1], names[|names| - 1];
    JoinSnoc(init, "& " + last, ", ");
  }

  lemma {:induction false} JoinSnoc(xs: seq<string>, x: string, sep: string)
    requires |xs| >= 1
    ensures Join(xs + [x], sep) == Join(xs, sep) + sep + x
  {
    if |xs| == 1 {
      assert (xs + [x])[1..] == [x];
    } else {
      assert (xs + [x])[1..] == xs[1..] + [x];
      JoinSnoc(xs[1..], x, sep);
    }
  }

  /** Two names can be read back: when neither holds `&`, splitting the line at the
      ampersand gives each name with its space. */
  lemma TwoArtistsReadBack(names: seq<string>)
    requires |names| == 2 && '&' !in names[0] && '&' !in names[1]
    ensures Split(JoinArtists(Some(names)).value, '&') == [names[0] + " ", " " + names[1]]
  {
    var xs := [names[0] + " ", " " + names[1]];
    assert Join(names, " & ") == Join(xs, "&");
    assert '&' !in " ";
    SplitJoin(xs, '&');
  }

  /** Three or more names can be read back: when no name holds a comma, splitting the line at
      the commas gives the first name, then each middle name after a space, then the last
      name after `" & "`. */
  lemma SerialArtistsReadBack(names: seq<string>)
    requires |names| >= 3 && forall k :: 0 <= k < |names| ==> ',' !in names[k]
    ensures var parts := Split(JoinArtists(Some(names)).value, ',');
      |parts| == |names| && parts[0] == names[0]
      && (forall k :: 0 < k < |names| - 1 ==> parts[k] == " " + names[k])
      && parts[|names| - 1] == " & " + names[|names| - 1]
  {
    var init, last := names[..|names| - 1], names[|names| - 1];
    var ys := init + ["& " + last];
    SerialCommaJoin(names);
    assert ", " == [','] + " ";
    JoinPrefixed(ys, ',', " ");
    var ps := SerialParts(names);
    SplitJoin(ps, ',');
  }

  /** The comma-separated parts of a serial-comma line. */
  lemma SerialParts(names: seq<string>) returns (ps: seq<string>)
    requires |names| >= 3 && forall k :: 0 <= k < |names| ==> ',' !in names[k]
    ensures ps == Prefixed(names[..|names| - 1] + ["& " + names[|names| - 1]], " ")
    ensures |ps| == |names| && ps[0] == names[0]
    ensures forall k :: 0 < k < |names| - 1 ==> ps[k] == " " + names[k]
    ensures ps[|names| - 1] == " & " + names[|names| - 1]
    ensures forall k :: 0 <= k < |ps| ==> ',' !in ps[k]
  {
    var last := names[|names| - 1];
    var ys := names[..|names| - 1] + ["& " + last];
    ps := Prefixed(ys, " ");
    assert forall k :: 0 <= k < |names| - 1 ==> ys[k] == names[k];
    assert ps[|names| - 1] == " " + ("& " + last) == " & " + last;
    assert ',' !in " " && ',' !in "& ";
  }

  /** `isAfter(created_at, subMinutes(new Date(), 2))`, in milliseconds since the epoch. */
  predicate IsPlaying(createdAt: int, now: int) {
    createdAt > now - 120000
  }

  /** A track stops counting as playing two minutes after it was recorded, and once it stops
      it never counts again. */
  lemma PlayingWindow(createdAt: int, now: int, later: int)
    requires now <= later
    ensures IsPlaying(createdAt, later) ==> IsPlaying(createdAt, now)
    ensures IsPlaying(createdAt, now) <==> now < createdAt + 120000
  {
  }
}
