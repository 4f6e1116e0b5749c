/** The records of the roster, the ranking categories, the empty draft and stat clamping. */
module ToyTypes {
  import opened Wrappers

  /** A JavaScript number as `clampStat` can meet it. Finite values are exact reals:
      floating-point representation is not modelled. */
  datatype Number = NaN | PosInfinity | NegInfinity | Finite(x: real)

  /** The order of `<=` on numbers other than NaN (NaN compares false with everything). */
  predicate NumberLe(a: Number, b: Number)
    requires !a.NaN? && !b.NaN?
  {
    match (a, b)
    case (NegInfinity, _) => true
    case (_, PosInfinity) => true
    case (Finite(x), Finite(y)) => x <= y
    case _ => false
  }

  /** `Math.round` on a finite number: the nearest integer, halves rounded up. */
  function Round(x: real): int {
    (x + 0.5).Floor
  }

  function Min(a: int, b: int): int { if a <= b then a else b }
  function Max(a: int, b: int): int { if a >= b then a else b }

  /** `clampStat`: NaN becomes 1, anything else is rounded and clamped into [1, 10].
      (`Math.round` keeps the infinities, which the clamp then sends to 10 and 1.) */
  function ClampStat(v: Number): (r: int)
    ensures 1 <= r <= 10
    ensures v.NaN? ==> r == 1
  {
    match v
    case NaN => 1
    case PosInfinity => 10
    case NegInfinity => 1
    case Finite(x) => Min(10, Max(1, Round(x)))
  }

  /** `Round` gives the integer nearest to its argument, and the upper one at a half. */
  lemma RoundIsNearest(x: real)
    ensures x - 0.5 < Round(x) as real <= x + 0.5
  {
  }

  /** On a finite input the clamp is the rounded value when that is in range, and the nearer
      bound otherwise. */
  lemma ClampStatFinite(x: real)
    ensures Round(x) < 1 ==> ClampStat(Finite(x)) == 1
    ensures Round(x) > 10 ==> ClampStat(Finite(x)) == 10
    ensures 1 <= Round(x) <= 10 ==> ClampStat(Finite(x)) == Round(x)
  {
  }

  /** An integer already in [1, 10] is left as it is. */
  lemma ClampStatKeepsInRange(k: int)
    requires 1 <= k <= 10
    ensures ClampStat(Finite(k as real)) == k
  {
    assert (k as real + 0.5).Floor == k;
  }

  /** Clamping a clamped value changes nothing. */
  lemma ClampStatIdempotent(v: Number)
    ensures ClampStat(Finite(ClampStat(v) as real)) == ClampStat(v)
  {
    ClampStatKeepsInRange(ClampStat(v));
  }

  /** A larger number never clamps to a smaller stat. */
  lemma ClampStatMonotone(a: Number, b: Number)
    requires !a.NaN? && !b.NaN? && NumberLe(a, b)
    ensures ClampStat(a) <= ClampStat(b)
  {
    if a.Finite? && b.Finite? {
      RoundMonotone(a.x, b.x);
    }
  }

  lemma RoundMonotone(x: real, y: real)
    requires x <= y
    ensures Round(x) <= Round(y)
  {
    assert (x + 0.5).Floor as real <= x + 0.5 <= y + 0.5;
  }

  /** Whether a stat of a stored record is in the range the type documents (1-10). */
  predicate StatInRange(n: int) {
    1 <= n <= 10
  }

  /** `Toy`: one record of the roster. */
  datatype Toy = Toy(
    id: string,
    name: string,
    description: Option<string>,
    photoUri: Option<string>,
    strength: int,
    speed: int,
    smartness: int,
    createdAt: int,
    updatedAt: int)
  {
    /** The three stats lie in [1, 10]. */
    predicate StatsInRange() {
      StatInRange(strength) && StatInRange(speed) && StatInRange(smartness)
    }
  }

  /** Whether every record of the roster has its stats in [1, 10]. */
  predicate AllStatsInRange(toys: seq<Toy>) {
    forall i :: 0 <= i < |toys| ==> toys[i].StatsInRange()
  }

  /** `ToyDraft`: what a form submits to create or edit a record; stats are not yet clamped. */
  datatype ToyDraft = ToyDraft(
    name: string,
    description: Option<string>,
    photoUri: Option<string>,
    strength: Number,
    speed: Number,
    smartness: Number)

  /** `RankingCategory`: one of the three stats, or all of them summed. */
  datatype Category = Strength | Speed | Smartness | All

  /** One entry of `RANKING_CATEGORIES` as the rankings screen shows it. The source's `label`
      is called `caption` here, because `label` is a Dafny keyword. */
  datatype CategoryInfo = CategoryInfo(key: Category, caption: string, emoji: string)

  /** The keys of a list of category entries, in order. */
  function Keys(infos: seq<CategoryInfo>): (keys: seq<Category>)
    ensures |keys| == |infos|
    ensures forall i :: 0 <= i < |infos| ==> keys[i] == infos[i].key
  {
    if infos == [] then [] else [infos[0].key] + Keys(infos[1..])
  }

  /** `RANKING_CATEGORIES`: the three stats in the order the records list them, then `All`. */
  function RankingCategories(): (r: seq<CategoryInfo>)
    ensures Keys(r) == [Strength, Speed, Smartness, All]
  {
    [ CategoryInfo(Strength, "Strength", "\U{1F4A5}"),
      CategoryInfo(Speed, "Speed", "\U{26A1}\U{FE0F}"),
      CategoryInfo(Smartness, "Smartness", "\U{1F9E0}"),
      CategoryInfo(All, "All Points", "\U{1F3C6}") ]
  }

  /** Every category is listed, and none twice. */
  lemma RankingCategoriesListEachOnce()
    ensures |RankingCategories()| == 4
    ensures forall c: Category :: c in Keys(RankingCategories())
    ensures forall i, j :: 0 <= i < j < |RankingCategories()| ==> Keys(RankingCategories())[i] != Keys(RankingCategories())[j]
  {
    var keys := Keys(RankingCategories());
    forall c: Category ensures c in keys {
      match c
      case Strength => assert keys[0] == c;
      case Speed => assert keys[1] == c;
      case Smartness => assert keys[2] == c;
      case All => assert keys[3] == c;
    }
  }

  /** `emptyToyDraft`: the draft a new-record form starts from. Its name is empty, it has no
      photo, and its stats of 5 are left at 5 by clamping. */
  function EmptyDraft(): (d: ToyDraft)
    ensures d.name == "" && d.photoUri.None?
    ensures ClampStat(d.strength) == 5 && ClampStat(d.speed) == 5 && ClampStat(d.smartness) == 5
  {
    ClampStatKeepsInRange(5);
    ToyDraft("", Some(""), None, Finite(5.0), Finite(5.0), Finite(5.0))
  }
}
