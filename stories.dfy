/** The Instagram card: the story segments cut from the latest posts, the index that steps
    through them, and the follower count's unit. */
module StoryCard {
  import opened Wrappers
  import opened Text
  import opened Cycling

  /** The post fields the card reads. */
  datatype Post = Post(id: string, images: seq<string>, caption: Option<string>, postedAt: Option<string>)

  datatype Segment = Segment(id: string, image: string, caption: Option<string>, postedAt: Option<string>)

  /** The most segments the card shows. */
  const MaxSegments := 5

  /** `post.images.slice(0, Math.max(1, Math.floor(post.images.length / 2)))`. */
  function Taken(images: seq<string>): seq<string> {
    var half := |images| / 2;
    var count := if half > 1 then half else 1;
    images[..if count < |images| then count else |images|]
  }

  /** A post gives its first half of images, rounded down, but at least one; an empty post
      gives none. */
  lemma TakenSpec(images: seq<string>)
    ensures |Taken(images)| == (if images == [] then 0 else if |images| / 2 > 1 then |images| / 2 else 1)
    ensures Taken(images) == images[..|Taken(images)|]
  {
  }

  /** One image of one post, in line for a segment. */
  datatype Candidate = Candidate(post: Post, image: string)

  function PostCandidates(p: Post): (r: seq<Candidate>)
    ensures |r| == |Taken(p.images)|
    ensures forall j :: 0 <= j < |r| ==> r[j] == Candidate(p, Taken(p.images)[j])
  {
    seq(|Taken(p.images)|, j requires 0 <= j < |Taken(p.images)| => Candidate(p, Taken(p.images)[j]))
  }

  /** Every candidate in post order, then image order, before the cap. */
  function Candidates(posts: seq<Post>): seq<Candidate> {
    if posts == [] then [] else PostCandidates(posts[0]) + Candidates(posts[1..])
  }

  lemma {:induction false} CandidatesAppend(xs: seq<Post>, ys: seq<Post>)
    ensures Candidates(xs + ys) == Candidates(xs) + Candidates(ys)
  {
    if xs == [] {
      assert xs + ys == ys;
    } else {
      assert (xs + ys)[1..] == xs[1..] + ys;
      CandidatesAppend(xs[1..], ys);
    }
  }

  /** The segment made of a candidate at 1-based position `k` of the whole list. */
  function SegmentOf(c: Candidate, k: nat): Segment {
    Segment(c.post.id + "-" + Decimal(k), c.image, c.post.caption, c.post.postedAt)
  }

  /** `segments` is the first `|segments|` candidates, each labelled with its position. */
  predicate Labels(segments: seq<Segment>, cs: seq<Candidate>) {
    |segments| <= |cs| && forall k :: 0 <= k < |segments| ==> segments[k] == SegmentOf(cs[k], k + 1)
  }

  lemma LabelsSnoc(segments: seq<Segment>, cs: seq<Candidate>, c: Candidate)
    requires Labels(segments, cs) && |segments| < |cs| && cs[|segments|] == c
    ensures Labels(segments + [SegmentOf(c, |segments| + 1)], cs)
  {
  }

  lemma LabelsExtend(segments: seq<Segment>, cs: seq<Candidate>, more: seq<Candidate>)
    requires Labels(segments, cs)
    ensures Labels(segments, cs + more)
  {
    forall k | 0 <= k < |segments| ensures segments[k] == SegmentOf((cs + more)[k], k + 1) {
      assert (cs + more)[k] == cs[k];
    }
  }

  /** The candidates of the first `i + 1` posts. */
  lemma CandidatesSnoc(posts: seq<Post>, i: nat)
    requires i < |posts|
    ensures Candidates(posts[..i + 1]) == Candidates(posts[..i]) + PostCandidates(posts[i])
  {
    CandidatesAppend(posts[..i], [posts[i]]);
    assert posts[..i + 1] == posts[..i] + [posts[i]];
    assert Candidates([posts[i]]) == PostCandidates(posts[i]) + Candidates([]);
  }

  /** `getSegments`: walks the posts and their kept images, stopping at the fifth segment even
      in the middle of a post. */
  method GetSegments(posts: seq<Post>) returns (segments: seq<Segment>)
    ensures var cs := Candidates(posts);
      Labels(segments, cs) && |segments| == (if |cs| < MaxSegments then |cs| else MaxSegments)
  {
    segments := [];
    var i := 0;
    while i < |posts|
      invariant 0 <= i <= |posts|
      invariant |Candidates(posts[..i])| <= MaxSegments
      invariant Labels(segments, Candidates(posts[..i])) && |segments| == |Candidates(posts[..i])|
    {
      var post := posts[i];
      var images := Taken(post.images);
      ghost var before := Candidates(posts[..i]);
      ghost var upTo := before + PostCandidates(post);
      CandidatesSnoc(posts, i);
      LabelsExtend(segments, before, PostCandidates(post));
      var j := 0;
      while j < |images|
        invariant 0 <= j <= |images|
        invariant |segments| == |before| + j <= MaxSegments
        invariant Labels(segments, upTo)
      {
        if |segments| >= MaxSegments {
          CandidatesOrder(posts, i + 1);
          LabelsExtend(segments, upTo, Candidates(posts[i + 1..]));
          return;
        }
        var segment := Segment(post.id + "-" + Decimal(|segments| + 1), images[j], post.caption, post.postedAt);
        assert upTo[|segments|] == Candidate(post, images[j]);
        LabelsSnoc(segments, upTo, Candidate(post, images[j]));
        segments := segments + [segment];
        j := j + 1;
      }
      i := i + 1;
    }
    assert posts[..i] == posts;
  }

  /** A post with no images contributes nothing, and each later post's segments come after
      every segment of the posts before it. */
  lemma CandidatesOrder(posts: seq<Post>, i: nat)
    requires i <= |posts|
    ensures Candidates(posts) == Candidates(posts[..i]) + Candidates(posts[i..])
    ensures i < |posts| && posts[i].images == [] ==> Candidates(posts[i..]) == Candidates(posts[i + 1..])
  {
    CandidatesAppend(posts[..i], posts[i..]);
    assert posts == posts[..i] + posts[i..];
    if i < |posts| {
      assert posts[i..][1..] == posts[i + 1..];
    }
  }

  // ---------------------------------------------------------------------------------------
  // Stepping through the story

  /** The progress bar, and with it the interval that advances the index by
      `NextIndex(index, |segments|)`, is there only for more than one segment. */
  predicate ShowsStoryBar(segments: seq<Segment>) {
    |segments| > 1
  }

  /** The index the card reads `segments.current[index]` at, after `k` ticks of the bar's
      interval; without the bar nothing ticks and the index stays at `0`. */
  function StoryIndex(segments: seq<Segment>, k: nat): nat {
    if ShowsStoryBar(segments) then Steps(|segments|, k) else 0
  }

  /** Whenever there is a segment at all, the story shows segment `k mod |segments|` after `k`
      ticks, so the index always names a segment and every segment comes round in turn. */
  lemma StoryIndexInBounds(segments: seq<Segment>, k: nat)
    requires |segments| > 0
    ensures StoryIndex(segments, k) == k % |segments|
    ensures StoryIndex(segments, k) < |segments|
  {
    if ShowsStoryBar(segments) {
      StepsCycle(|segments|, k);
    }
  }

  // ---------------------------------------------------------------------------------------
  // Followers

  /** The unit of the follower count. */
  function FollowerUnit(f: int): (r: string)
    ensures r == "M" <==> f >= 1000000
    ensures r == "k" <==> 1000 <= f < 1000000
    ensures r == "" <==> f < 1000
  {
    if f >= 1000000 then "M" else if f >= 1000 then "k" else ""
  }

  /** `formattedFollowers`; `scaled` is the one-decimal rendering `toFixed(1)` gives of the
      count divided by a million or a thousand. */
  function FormattedFollowers(f: nat, scaled: string): string {
    if f >= 1000 then scaled + FollowerUnit(f) else Decimal(f)
  }

  /** The last character tells the range: `M` for millions, `k` for thousands, and a digit of
      the plain count below a thousand. */
  lemma FollowersLastChar(f: nat, scaled: string)
    ensures var r := FormattedFollowers(f, scaled);
      |r| >= 1
      && (r[|r| - 1] == 'M' <==> f >= 1000000)
      && (r[|r| - 1] == 'k' <==> 1000 <= f < 1000000)
      && (f < 1000 ==> r == Decimal(f) && IsDigitChar(r[|r| - 1]))
  {
    NatToStringShape(f, 10);
    var r := FormattedFollowers(f, scaled);
    if f < 1000 {
      assert IsDigitChar(r[|r| - 1]);
    }
  }
}
