/** Where the site's owner was last seen: the description of a movement's place, as the
    location line of both sites, `describeLocation` and the header write it, and the modes the
    location line cycles through. A field that is `null`, `undefined` or empty is falsy. */
module LocationLine {
  import opened Wrappers
  import opened Text
  import opened Cycling

  datatype Place = Place(city: Option<string>, region: Option<string>, country: Option<string>)

  /** A truthy field. */
  predicate Present(f: Option<string>) {
    f.Some? && f.value != ""
  }

  predicate Known(p: Place) {
    Present(p.city) || Present(p.region) || Present(p.country)
  }

  /** `a || b` on two fields. */
  function Or(a: Option<string>, b: Option<string>): Option<string> {
    if Present(a) then a else b
  }

  /** `includes(["US", "CA", "AU"], country)`. */
  predicate PrefersRegion(country: Option<string>) {
    country.Some? && country.value in ["US", "CA", "AU"]
  }

  /** The array each branch builds: the city with its suffix, else the region with the
      country, else the country. */
  function Candidates(p: Place): seq<Option<string>> {
    if Present(p.city) then
      [p.city, if PrefersRegion(p.country) then Or(p.region, p.country) else Or(p.country, p.region)]
    else if Present(p.region) then [p.region, p.country]
    else [p.country]
  }

  /** `compact`: the truthy entries, in order. */
  function Compacted(xs: seq<Option<string>>): (r: seq<string>)
    ensures |r| <= |xs|
    ensures forall k :: 0 <= k < |r| ==> r[k] != ""
  {
    if xs == [] then []
    else (if Present(xs[0]) then [xs[0].value] else []) + Compacted(xs[1..])
  }

  /** The parts the place is written with. */
  function Parts(p: Place): seq<string> {
    Compacted(Candidates(p))
  }

  /** The parts: none exactly when nothing is known, at most two, none empty, the city first
      whenever there is one, with the region preferred for the United States, Canada and
      Australia and the country preferred elsewhere; without a city, the region and then the
      country. */
  lemma PartsSpec(p: Place)
    ensures |Parts(p)| == 0 <==> !Known(p)
    ensures |Parts(p)| <= 2
    ensures forall k :: 0 <= k < |Parts(p)| ==> Parts(p)[k] != ""
    ensures Present(p.city) ==> Parts(p)[0] == p.city.value
    ensures Present(p.city) && PrefersRegion(p.country) ==>
      Parts(p) == [p.city.value, if Present(p.region) then p.region.value else p.country.value]
    ensures Present(p.city) && !PrefersRegion(p.country) ==>
      Parts(p) == [p.city.value] + (if Present(p.country) then [p.country.value] else if Present(p.region) then [p.region.value] else [])
    ensures !Present(p.city) && Present(p.region) ==>
      Parts(p) == [p.region.value] + (if Present(p.country) then [p.country.value] else [])
    ensures !Present(p.city) && !Present(p.region) ==>
      Parts(p) == (if Present(p.country) then [p.country.value] else [])
  {
    var c := Candidates(p);
    assert c[1..] == [] || (|c| == 2 && c[1..] == [c[1]]);
    if |c| == 2 {
      assert Compacted(c) == (if Present(c[0]) then [c[0].value] else []) + Compacted([c[1]]);
      assert Compacted([c[1]]) == (if Present(c[1]) then [c[1].value] else []) + Compacted([]);
    } else {
      assert Compacted(c) == (if Present(c[0]) then [c[0].value] else []) + Compacted([]);
    }
    if PrefersRegion(p.country) {
      assert Present(p.country);
    }
  }

  /** `getCurrentlyIn`, the same in both location lines: the parts joined by `", "`, or
      `unknown`. */
  function CurrentlyIn(p: Place): string {
    if Known(p) && |Parts(p)| > 0 then Join(Parts(p), ", ") else "unknown"
  }

  /** `describeLocation`, and the header's `locationDescription`, which is the same code:
      `undefined` when nothing is known, else the joined parts, or `undefined` if they join
      to the empty string. */
  function DescribeLocation(p: Place): Option<string> {
    if !Known(p) then None
    else
      var joined := Join(Parts(p), ", ");
      if joined != "" then Some(joined) else None
  }

  /** Joining non-empty parts never gives the empty string. */
  lemma {:induction false} JoinNonEmpty(xs: seq<string>, sep: string)
    requires |xs| >= 1 && forall k :: 0 <= k < |xs| ==> xs[k] != ""
    ensures Join(xs, sep) != ""
  {
    if |xs| > 1 {
      assert |Join(xs, sep)| >= |xs[0]|;
    }
  }

  /** The location line says `unknown` for a place with nothing known and otherwise the
      non-empty joined parts; the description is missing exactly then, and otherwise agrees
      with the location line. */
  lemma DescriptionsAgree(p: Place)
    ensures !Known(p) ==> CurrentlyIn(p) == "unknown" && DescribeLocation(p) == None
    ensures Known(p) ==> CurrentlyIn(p) == Join(Parts(p), ", ") && CurrentlyIn(p) != ""
    ensures DescribeLocation(p).None? <==> !Known(p)
    ensures DescribeLocation(p).Some? ==> DescribeLocation(p).value == CurrentlyIn(p)
  {
    PartsSpec(p);
    if Known(p) {
      JoinNonEmpty(Parts(p), ", ");
    }
  }

  // ---------------------------------------------------------------------------------------
  // Modes

  /** What the location line shows. */
  datatype Panel = CurrentLocation | LastSeen | LocalTime

  /** The `Mode` enum of the newer site, `CurrentLocation, LastSeen, LocalTime`. */
  function RootMode(mode: int): Option<Panel> {
    if mode == 0 then Some(CurrentLocation)
    else if mode == 1 then Some(LastSeen)
    else if mode == 2 then Some(LocalTime)
    else None
  }

  /** The `Mode` enum of the older site, `CurrentLocation, LocalTime, LastSeen`. */
  function SrcMode(mode: int): Option<Panel> {
    if mode == 0 then Some(CurrentLocation)
    else if mode == 1 then Some(LocalTime)
    else if mode == 2 then Some(LastSeen)
    else None
  }

  /** `modes`, the numeric values of the enum. */
  const ModeCount := 3

  /** `getLastSeen`: `Just now` less than a minute after the move, else the elapsed time in
      words, which `formatDistanceToNowStrict` writes and is given here, followed by `ago`. */
  function LastSeenText(seconds: int, distance: string): (r: string)
    ensures r == "Just now" <==> seconds < 60
    ensures seconds >= 60 ==> |r| == |distance| + 4 && r[..|distance|] == distance && r[|distance|..] == " ago"
  {
    if seconds < 60 then "Just now"
    else
      var r := distance + " ago";
      assert r[|r| - 1] == 'o' && "Just now"[7] == 'w';
      r
  }

  /** The line's text: the switch over the mode, which throws for a value outside the enum.
      The local time and the time since the last move are given already formatted. */
  function Children(panel: Option<Panel>, p: Place, localTime: string, lastSeen: string): Result<string> {
    match panel
    case Some(CurrentLocation) => Ok("Currently in: " + CurrentlyIn(p))
    case Some(LocalTime) => Ok("Local time: " + localTime)
    case Some(LastSeen) => Ok("Last seen: " + lastSeen)
    case None => Err("Invalid elevator mode")
  }

  /** The mode starts at `modes[0]` and ticks with `(prev + 1) % modes.length`, so after `k`
      ticks the newer line shows current location, last seen and local time in turn and the
      older one current location, local time and last seen; the throwing branch is never
      taken. */
  lemma ModesCycle(k: nat, p: Place, localTime: string, lastSeen: string)
    ensures var mode := Steps(ModeCount, k);
      RootMode(mode) == Some([CurrentLocation, LastSeen, LocalTime][k % 3])
      && SrcMode(mode) == Some([CurrentLocation, LocalTime, LastSeen][k % 3])
      && Children(RootMode(mode), p, localTime, lastSeen).Ok?
      && Children(SrcMode(mode), p, localTime, lastSeen).Ok?
  {
    StepsCycle(ModeCount, k);
  }

  // ---------------------------------------------------------------------------------------
  // The first item of the older line

  /** The `initial` opacity of a line, given whether a first item has rendered. */
  function InitialOpacity(rendered: bool): int {
    if rendered then 0 else 1
  }

  /** The initial opacities of a run of lines, each entry of `completed` saying whether that
      line's animation completed before the next line replaced it. */
  function Opacities(completed: seq<bool>, rendered: bool): (r: seq<int>)
    ensures |r| == |completed|
  {
    if completed == [] then []
    else [InitialOpacity(rendered)] + Opacities(completed[1..], rendered || completed[0])
  }

  /** A line appears at once exactly when no first item has rendered and no earlier line
      completed its animation; every other line fades in from 0. */
  lemma {:induction false} OpacitiesShape(completed: seq<bool>, rendered: bool)
    ensures forall i :: 0 <= i < |completed| ==>
      (Opacities(completed, rendered)[i] == 1 <==> !rendered && true !in completed[..i])
      && (Opacities(completed, rendered)[i] == 0 <==> rendered || true in completed[..i])
    decreases |completed|
  {
    if completed != [] {
      var tail := completed[1..];
      OpacitiesShape(tail, rendered || completed[0]);
      forall i | 1 <= i < |completed|
        ensures (true in completed[..i]) == (completed[0] || true in tail[..i - 1])
      {
        assert completed[..i] == [completed[0]] + tail[..i - 1];
      }
    }
  }

  /** On a fresh component whose first line completes its animation, that line shows at
      opacity 1 and every later line fades in from 0. */
  lemma FirstLineOnly(completed: seq<bool>)
    requires |completed| > 0 && completed[0]
    ensures Opacities(completed, false)[0] == 1
    ensures forall i :: 1 <= i < |completed| ==> Opacities(completed, false)[i] == 0
  {
    OpacitiesShape(completed, false);
    forall i | 1 <= i < |completed| ensures true in completed[..i] {
      assert completed[..i][0] == completed[0];
    }
  }

  /** `renderedFirstItem`: false until the first line's animation completes. */
  class FirstItem {
    var rendered: bool

    constructor()
      ensures !rendered
    {
      rendered := false;
    }

    /** `onAnimationComplete`: sets the flag, which nothing clears again. */
    method AnimationComplete()
      modifies this
      ensures rendered
    {
      rendered := true;
    }

    /** The lines the interval shows in turn: each is rendered with the `initial` opacity the
        flag gives, and its `onAnimationComplete` runs when `completed` says so. */
    method ShowLines(completed: seq<bool>) returns (opacities: seq<int>)
      modifies this
      ensures opacities == Opacities(completed, old(rendered))
      ensures rendered == (old(rendered) || true in completed)
    {
      opacities := [];
      var i := 0;
      while i < |completed|
        invariant 0 <= i <= |completed|
        invariant rendered == (old(rendered) || true in completed[..i])
        invariant opacities + Opacities(completed[i..], rendered) == Opacities(completed, old(rendered))
      {
        assert completed[i..][1..] == completed[i + 1..];
        assert completed[..i + 1] == completed[..i] + [completed[i]];
        opacities := opacities + [InitialOpacity(rendered)];
        if completed[i] {
          AnimationComplete();
        }
        i := i + 1;
      }
      assert completed[..i] == completed;
    }
  }
}
