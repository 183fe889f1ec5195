/** The Duolingo card: the offset of each course's flag in the flag sprite, and the courses
    the card shows. */
module FlagCard {
  import opened Wrappers
  import opened Values

  /** `flagKeys`, in sprite order. */
  const FlagKeys: seq<string> := [
    "en", "es", "fr", "de", "ja", "it", "ko", "zh", "ru", "pt", "tr", "nl", "sv", "ga", "el",
    "he", "pl", "no", "vi", "da", "hv", "ro", "sw", "eo", "hu", "cy", "uk", "kl", "cs", "hi",
    "id", "ha", "nv", "ar", "ca", "th", "gn", "ambassador", "duolingo", "troubleshooting",
    "teachers", "la", "gd", "fi", "Yiddish"]

  /** The height of one flag, and of the whole sprite, in pixels. */
  const FlagHeight := 66
  const SpriteHeight := 3168

  // ---------------------------------------------------------------------------------------
  // Flag offsets

  /** The table after writing `index * 66` under each key in turn: a later occurrence of a
      key overwrites an earlier one. */
  function OffsetsOf(keys: seq<string>): map<string, int> {
    if keys == [] then map[]
    else OffsetsOf(keys[..|keys| - 1])[keys[|keys| - 1] := FlagHeight * (|keys| - 1)]
  }

  /** `flagOffsets`, filled by `forEach(flagKeys, (key, index) => …)`. */
  method BuildFlagOffsets(keys: seq<string>) returns (offsets: map<string, int>)
    ensures offsets == OffsetsOf(keys)
  {
    offsets := map[];
    var index := 0;
    while index < |keys|
      invariant 0 <= index <= |keys|
      invariant offsets == OffsetsOf(keys[..index])
    {
      assert keys[..index + 1][..index] == keys[..index];
      offsets := offsets[keys[index] := index * FlagHeight];
      index := index + 1;
    }
    assert keys[..index] == keys;
  }

  predicate Distinct(keys: seq<string>) {
    forall i, j :: 0 <= i < j < |keys| ==> keys[i] != keys[j]
  }

  /** Exactly the keys have an offset. */
  lemma {:induction false} OffsetsKeys(keys: seq<string>)
    ensures forall k :: k in OffsetsOf(keys) <==> k in keys
  {
    if keys != [] {
      var init, last := keys[..|keys| - 1], keys[|keys| - 1];
      assert keys == init + [last];
      OffsetsKeys(init);
    }
  }

  /** Each offset is a multiple of the flag height within the first `|keys|` flags. */
  lemma {:induction false} OffsetsBounds(keys: seq<string>)
    ensures forall k :: k in OffsetsOf(keys) ==>
      OffsetsOf(keys)[k] % FlagHeight == 0 && 0 <= OffsetsOf(keys)[k] && OffsetsOf(keys)[k] + FlagHeight <= FlagHeight * |keys|
  {
    if keys != [] {
      OffsetsBounds(keys[..|keys| - 1]);
    }
  }

  /** The offset of a key is `66` times the index of its last occurrence. */
  lemma {:induction false} OffsetsLastWins(keys: seq<string>, i: nat)
    requires i < |keys| && keys[i] !in keys[i + 1..]
    ensures keys[i] in OffsetsOf(keys) && OffsetsOf(keys)[keys[i]] == FlagHeight * i
  {
    var init, last := keys[..|keys| - 1], keys[|keys| - 1];
    if i < |keys| - 1 {
      assert last in keys[i + 1..];
      assert init[i + 1..] == keys[i + 1..|keys| - 1];
      assert keys[i] == init[i];
      OffsetsLastWins(init, i);
    }
  }

  /** With distinct keys, `flagOffsets[flagKeys[i]]` is `66 * i` and no two keys share an
      offset. */
  lemma DistinctOffsets(keys: seq<string>)
    requires Distinct(keys)
    ensures forall i :: 0 <= i < |keys| ==> keys[i] in OffsetsOf(keys) && OffsetsOf(keys)[keys[i]] == FlagHeight * i
    ensures forall a, b :: a in OffsetsOf(keys) && b in OffsetsOf(keys) && a != b ==> OffsetsOf(keys)[a] != OffsetsOf(keys)[b]
  {
    OffsetsKeys(keys);
    forall i | 0 <= i < |keys| ensures keys[i] in OffsetsOf(keys) && OffsetsOf(keys)[keys[i]] == FlagHeight * i {
      OffsetsLastWins(keys, i);
    }
    forall a, b | a in OffsetsOf(keys) && b in OffsetsOf(keys) && a != b ensures OffsetsOf(keys)[a] != OffsetsOf(keys)[b] {
      var i :| 0 <= i < |keys| && keys[i] == a;
      var j :| 0 <= j < |keys| && keys[j] == b;
    }
  }

  /** Every flag's window, `66` pixels from its offset, lies inside the 3168-pixel sprite. */
  lemma FlagsFitSprite()
    ensures forall k :: k in OffsetsOf(FlagKeys) ==> 0 <= OffsetsOf(FlagKeys)[k] && OffsetsOf(FlagKeys)[k] + FlagHeight <= SpriteHeight
  {
    OffsetsBounds(FlagKeys);
    assert |FlagKeys| == 45;
  }

  // ---------------------------------------------------------------------------------------
  // Courses

  /** `{ ...course, flagOffset }`. */
  datatype FlaggedCourse = FlaggedCourse(course: Json, flagOffset: int)

  /** The mapping callback: a course whose `learningLanguage` is a string with an offset,
      which may be `0`, gains that offset; any other course becomes `null`. */
  function Flag(course: Json, offsets: map<string, int>): (r: Option<FlaggedCourse>)
    ensures r.Some? <==> Get(course, "learningLanguage").JStr? && Get(course, "learningLanguage").s in offsets
    ensures r.Some? ==> r.value == FlaggedCourse(course, offsets[Get(course, "learningLanguage").s])
  {
    match Get(course, "learningLanguage")
    case JStr(language) => if language in offsets then Some(FlaggedCourse(course, offsets[language])) else None
    case _ => None
  }

  /** `compact(map(courses, …))`: the flagged courses, in input order. */
  function Kept(courses: seq<Json>, offsets: map<string, int>): seq<FlaggedCourse> {
    if courses == [] then []
    else
      (match Flag(courses[0], offsets) case Some(f) => [f] case None => []) + Kept(courses[1..], offsets)
  }

  /** A flagged course is kept exactly when its course is in the input and has an offset. */
  lemma {:induction false} KeptMembers(courses: seq<Json>, offsets: map<string, int>)
    ensures forall f :: f in Kept(courses, offsets) <==> f.course in courses && Flag(f.course, offsets) == Some(f)
  {
    if courses != [] {
      KeptMembers(courses[1..], offsets);
      assert forall c :: c in courses <==> c == courses[0] || c in courses[1..];
    }
  }

  /** The filter keeps order: it distributes over concatenation. */
  lemma {:induction false} KeptAppend(xs: seq<Json>, ys: seq<Json>, offsets: map<string, int>)
    ensures Kept(xs + ys, offsets) == Kept(xs, offsets) + Kept(ys, offsets)
  {
    if xs == [] {
      assert xs + ys == ys;
    } else {
      assert (xs + ys)[1..] == xs[1..] + ys;
      KeptAppend(xs[1..], ys, offsets);
    }
  }

  /** `slice(withoutNull, 0, 3)`. */
  function Shown(courses: seq<Json>, offsets: map<string, int>): (r: seq<FlaggedCourse>)
    ensures |r| <= 3
  {
    var kept := Kept(courses, offsets);
    kept[..if |kept| < 3 then |kept| else 3]
  }

  /** The card shows the first three flagged courses: a course that has an offset is shown
      exactly when fewer than three flagged courses come before it. */
  lemma {:induction false} ShownFirstThree(courses: seq<Json>, offsets: map<string, int>, i: nat)
    requires i < |courses| && Flag(courses[i], offsets).Some?
    ensures var before := |Kept(courses[..i], offsets)|;
      before < 3 <==> before < |Shown(courses, offsets)| && Shown(courses, offsets)[before] == Flag(courses[i], offsets).value
  {
    var f := Flag(courses[i], offsets).value;
    assert courses == courses[..i] + [courses[i]] + courses[i + 1..];
    KeptAppend(courses[..i] + [courses[i]], courses[i + 1..], offsets);
    KeptAppend(courses[..i], [courses[i]], offsets);
    assert Kept([courses[i]], offsets) == [f] + Kept([], offsets);
    var kept := Kept(courses, offsets);
    var before := |Kept(courses[..i], offsets)|;
    assert kept[before] == f;
  }
}
