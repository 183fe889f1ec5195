/** `getBestImage`, which the Spotify and the now-playing routes define identically: a first
    fold finds the widest image, a second picks the narrowest image of at least 320x320,
    starting from the widest. */
module Images {
  import opened Wrappers

  datatype Image = Image(width: int, height: int, url: string)

  /** "Ideally 2x container size". */
  predicate Qualifies(image: Image) {
    image.width >= 320 && image.height >= 320
  }

  /** `reduce(images, (largest, image) => image.width > largest.width ? image : largest, acc)`. */
  function Widest(acc: Image, images: seq<Image>): Image
    decreases |images|
  {
    if images == [] then acc
    else Widest(if images[0].width > acc.width then images[0] else acc, images[1..])
  }

  /** The second fold, from `acc`: a qualifying image replaces the current one only when it
      is strictly narrower. */
  function Narrowest(acc: Image, images: seq<Image>): Image
    decreases |images|
  {
    if images == [] then acc
    else Narrowest(if Qualifies(images[0]) && images[0].width < acc.width then images[0] else acc, images[1..])
  }

  /** `undefined` for an absent list and, since `images[0]` is then `undefined`, for an empty one. */
  function GetBestImage(images: Option<seq<Image>>): Option<Image> {
    if images.None? || images.value == [] then None
    else
      var xs := images.value;
      Some(Narrowest(Widest(xs[0], xs), xs))
  }

  /** The first fold keeps the accumulator unless some image is strictly wider; then it ends
      on the first image of the largest width. */
  lemma {:induction false} WidestFold(acc: Image, images: seq<Image>)
    ensures var r := Widest(acc, images);
      r.width >= acc.width
      && (forall j :: 0 <= j < |images| ==> images[j].width <= r.width)
      && (r == acc || exists i :: 0 <= i < |images| && images[i] == r && r.width > acc.width
                                  && forall j :: 0 <= j < i ==> images[j].width < r.width)
    decreases |images|
  {
    if images != [] {
      var next := if images[0].width > acc.width then images[0] else acc;
      WidestFold(next, images[1..]);
      var r := Widest(acc, images);
      assert r == Widest(next, images[1..]);
      if r != next {
        var i :| 0 <= i < |images[1..]| && images[1..][i] == r && r.width > next.width
                 && forall j :: 0 <= j < i ==> images[1..][j].width < r.width;
        assert images[i + 1] == r;
        assert forall j :: 1 <= j < i + 1 ==> images[j].width == images[1..][j - 1].width;
      } else if r != acc {
        assert images[0] == r;
      }
    }
  }

  /** The second fold never widens its accumulator, ends no wider than any qualifying image,
      and moves off the accumulator only to a qualifying image of the list. */
  lemma {:induction false} NarrowestFold(acc: Image, images: seq<Image>)
    ensures var r := Narrowest(acc, images);
      r.width <= acc.width
      && (forall j :: 0 <= j < |images| && Qualifies(images[j]) ==> r.width <= images[j].width)
      && (r == acc || (r in images && Qualifies(r) && r.width < acc.width))
    decreases |images|
  {
    if images != [] {
      var next := if Qualifies(images[0]) && images[0].width < acc.width then images[0] else acc;
      NarrowestFold(next, images[1..]);
      assert forall j :: 1 <= j < |images| ==> images[j] == images[1..][j - 1];
    }
  }

  /** The widest image: the first of maximal width. */
  lemma FirstWidest(images: seq<Image>)
    requires images != []
    ensures var w := Widest(images[0], images);
      (forall j :: 0 <= j < |images| ==> images[j].width <= w.width)
      && exists i :: 0 <= i < |images| && images[i] == w && forall j :: 0 <= j < i ==> images[j].width < w.width
  {
    WidestFold(images[0], images);
  }

  /** An absent or empty list has no best image; otherwise the best image is one of the list. */
  lemma BestImageIsElement(images: Option<seq<Image>>)
    ensures GetBestImage(images).None? <==> images.None? || images.value == []
    ensures GetBestImage(images).Some? ==> GetBestImage(images).value in images.value
  {
    if images.Some? && images.value != [] {
      var xs := images.value;
      FirstWidest(xs);
      NarrowestFold(Widest(xs[0], xs), xs);
    }
  }

  /** With no image of at least 320x320 the best image is the first widest one. */
  lemma BestImageNoneQualify(images: seq<Image>)
    requires images != [] && forall j :: 0 <= j < |images| ==> !Qualifies(images[j])
    ensures GetBestImage(Some(images)) == Some(Widest(images[0], images))
  {
    NarrowestFold(Widest(images[0], images), images);
  }

  /** With some image of at least 320x320, the best image is exactly as wide as the narrowest
      qualifying one. */
  lemma BestImageSomeQualify(images: seq<Image>, k: nat)
    requires k < |images| && Qualifies(images[k])
    ensures var r := GetBestImage(Some(images)).value;
      (forall j :: 0 <= j < |images| && Qualifies(images[j]) ==> r.width <= images[j].width)
      && exists j :: 0 <= j < |images| && Qualifies(images[j]) && images[j].width == r.width
  {
    var w := Widest(images[0], images);
    FirstWidest(images);
    NarrowestFold(w, images);
    var r := Narrowest(w, images);
    if r == w {
      assert images[k].width == r.width;
    } else {
      var j :| 0 <= j < |images| && images[j] == r;
    }
  }

  /** The tie quirk, as written: a qualifying image as wide as the widest one does not replace
      it, so the result can fall short of 320x320 although a qualifying image exists. */
  lemma TieKeepsWidest()
    ensures var images := [Image(640, 100, "wide"), Image(640, 640, "square")];
      GetBestImage(Some(images)) == Some(images[0]) && !Qualifies(images[0]) && Qualifies(images[1])
  {
  }
}
