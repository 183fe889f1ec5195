/** The VO2-max banding of the Garmin card: an age group from the age, a category index from
    the age group's threshold table, and the band `[min, max)` the value falls in. Every
    threshold has one decimal, so values are kept in tenths (`55.4` is `554`) and compare
    exactly as integers. */
module Vo2Max {
  import opened Wrappers

  datatype Gender = Male | Female

  /** `"20-29"` … `"70-79"`. */
  datatype AgeGroup = Twenties | Thirties | Forties | Fifties | Sixties | Seventies {
    /** The first age of the decade. */
    function Lower(): int {
      match this
      case Twenties => 20
      case Thirties => 30
      case Forties => 40
      case Fifties => 50
      case Sixties => 60
      case Seventies => 70
    }
  }

  datatype Category = Poor | Fair | Good | Excellent | Superior

  /** The band of a value: its category, the category's threshold, the next one up, and the
      index of the category. */
  datatype Band = Band(name: Category, min: int, max: int, index: int)

  /** The upper end of the top band, `100`, in tenths. */
  const TopMax := 1000

  /** `garminVo2Categories[gender][group]`, a record from category index to threshold. */
  function Thresholds(gender: Gender, group: AgeGroup): map<int, int> {
    match (gender, group)
    case (Male, Twenties) => map[5 := 554, 4 := 490, 3 := 430, 2 := 380, 1 := 0]
    case (Male, Thirties) => map[5 := 540, 4 := 460, 3 := 410, 2 := 360, 1 := 0]
    case (Male, Forties) => map[5 := 525, 4 := 440, 3 := 380, 2 := 340, 1 := 0]
    case (Male, Fifties) => map[5 := 489, 4 := 410, 3 := 350, 2 := 310, 1 := 0]
    case (Male, Sixties) => map[5 := 457, 4 := 380, 3 := 320, 2 := 280, 1 := 0]
    case (Male, Seventies) => map[5 := 421, 4 := 350, 3 := 290, 2 := 250, 1 := 0]
    case (Female, Twenties) => map[5 := 496, 4 := 440, 3 := 390, 2 := 350, 1 := 0]
    case (Female, Thirties) => map[5 := 474, 4 := 420, 3 := 370, 2 := 330, 1 := 0]
    case (Female, Forties) => map[5 := 453, 4 := 390, 3 := 350, 2 := 310, 1 := 0]
    case (Female, Fifties) => map[5 := 411, 4 := 360, 3 := 320, 2 := 280, 1 := 0]
    case (Female, Sixties) => map[5 := 377, 4 := 330, 3 := 290, 2 := 260, 1 := 0]
    case (Female, Seventies) => map[5 := 350, 4 := 300, 3 := 260, 2 := 220, 1 := 0]
  }

  /** A table whose thresholds are defined exactly for 1..5, start at `0` and strictly rise
      with the index. */
  predicate Banded(t: map<int, int>) {
    t.Keys == {1, 2, 3, 4, 5} && t[1] == 0 && t[1] < t[2] < t[3] < t[4] < t[5]
  }

  lemma ThresholdsBanded(gender: Gender, group: AgeGroup)
    ensures Banded(Thresholds(gender, group))
  {
    var t := Thresholds(gender, group);
    assert t.Keys == {1, 2, 3, 4, 5};
  }

  /** `getAgeGroup`: the decade containing the age, for ages 20 through 79. */
  function AgeGroupOf(age: int): (r: Option<AgeGroup>)
    ensures r.None? <==> age < 20 || age >= 80
    ensures r.Some? ==> r.value.Lower() <= age < r.value.Lower() + 10
  {
    if age >= 80 then None
    else if age >= 70 then Some(Seventies)
    else if age >= 60 then Some(Sixties)
    else if age >= 50 then Some(Fifties)
    else if age >= 40 then Some(Forties)
    else if age >= 30 then Some(Thirties)
    else if age >= 20 then Some(Twenties)
    else None
  }

  /** `getCategoryIndex`: the highest index from 5 down to 2 whose threshold the value
      reaches, else 1. A missing threshold is `undefined`, which no comparison reaches. */
  function CategoryIndex(vo2max: int, t: map<int, int>): (r: int)
    ensures 1 <= r <= 5
    ensures r >= 2 ==> r in t && vo2max >= t[r]
    ensures forall k :: r < k <= 5 && k in t ==> vo2max < t[k]
  {
    if 5 in t && vo2max >= t[5] then 5
    else if 4 in t && vo2max >= t[4] then 4
    else if 3 in t && vo2max >= t[3] then 3
    else if 2 in t && vo2max >= t[2] then 2
    else 1
  }

  /** A higher value never falls into a lower category. */
  lemma CategoryMonotone(v: int, w: int, t: map<int, int>)
    requires v <= w
    ensures CategoryIndex(v, t) <= CategoryIndex(w, t)
  {
  }

  /** `getThresholdName`. */
  function ThresholdName(index: int): Category {
    if index == 5 then Superior
    else if index == 4 then Excellent
    else if index == 3 then Good
    else if index == 2 then Fair
    else Poor
  }

  /** The index each category stands for. */
  function Rank(c: Category): (r: int)
    ensures 1 <= r <= 5
  {
    match c
    case Poor => 1
    case Fair => 2
    case Good => 3
    case Excellent => 4
    case Superior => 5
  }

  /** Names and indexes correspond one to one on 1..5, and every other index is poor. */
  lemma NameRank(index: int, c: Category)
    ensures 1 <= index <= 5 ==> Rank(ThresholdName(index)) == index
    ensures !(1 <= index <= 5) ==> ThresholdName(index) == Poor
    ensures ThresholdName(Rank(c)) == c
  {
  }

  /** `getVo2MaxCategory`. `max` is `threshold[index + 1] || 100`. */
  function Vo2MaxCategory(vo2max: int, age: int, gender: Gender): (r: Option<Band>)
    ensures r.None? <==> AgeGroupOf(age).None?
  {
    match AgeGroupOf(age)
    case None => None
    case Some(group) =>
      var t := Thresholds(gender, group);
      var index := CategoryIndex(vo2max, t);
      var max := if index + 1 in t && t[index + 1] != 0 then t[index + 1] else TopMax;
      Some(Band(ThresholdName(index), t[index], max, index))
  }

  /** For a non-negative value in a known age group, the band contains it: `min` is the
      category's threshold and at most the value, and below the top category the value is
      under `max`, the next threshold; the top band ends at 100. */
  lemma BandContains(vo2max: int, age: int, gender: Gender)
    requires vo2max >= 0 && AgeGroupOf(age).Some?
    ensures var b := Vo2MaxCategory(vo2max, age, gender).value;
      var t := Thresholds(gender, AgeGroupOf(age).value);
      && b.index == CategoryIndex(vo2max, t) && b.name == ThresholdName(b.index)
      && b.min == t[b.index] && b.min <= vo2max
      && (b.index < 5 ==> b.max == t[b.index + 1] && vo2max < b.max)
      && (b.index == 5 ==> b.max == TopMax)
  {
    ThresholdsBanded(gender, AgeGroupOf(age).value);
  }
}
