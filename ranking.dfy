/** `getValueForCategory` and `getRanking`: scoring a record by a category and ranking a roster. */
module Ranking {
  import opened ToyTypes

  /** `getValueForCategory`: the named stat, or the sum of the three for `All`. On a record with
      stats in range a single-stat score is in [1, 10] and the `All` score in [3, 30]. */
  function Score(t: Toy, c: Category): (r: int)
    ensures t.StatsInRange() && c != All ==> 1 <= r <= 10
    ensures t.StatsInRange() && c == All ==> 3 <= r <= 30
  {
    match c
    case Strength => t.strength
    case Speed => t.speed
    case Smartness => t.smartness
    case All => t.strength + t.speed + t.smartness
  }

  /** A record whose every stat is at least another's scores at least as much in every
      category, so it never ranks below it on score. */
  lemma ScoreMonotone(a: Toy, b: Toy, c: Category)
    requires a.strength >= b.strength && a.speed >= b.speed && a.smartness >= b.smartness
    ensures Score(a, c) >= Score(b, c)
  {
  }

  /** Raising one stat of a record raises its `All` score by the same amount. */
  lemma ScoreAllTracksEachStat(t: Toy, d: int)
    ensures Score(t.(strength := t.strength + d), All) == Score(t, All) + d
    ensures Score(t.(speed := t.speed + d), All) == Score(t, All) + d
    ensures Score(t.(smartness := t.smartness + d), All) == Score(t, All) + d
  {
  }

  /** The order names are tie-broken by: lexicographic on character codes. */
  predicate NameLe(a: string, b: string) {
    a == [] || (b != [] && (a[0] < b[0] || (a[0] == b[0] && NameLe(a[1..], b[1..]))))
  }

  lemma {:induction false} NameLeReflexive(a: string)
    ensures NameLe(a, a)
  {
    if a != [] {
      NameLeReflexive(a[1..]);
    }
  }

  lemma {:induction false} NameLeTotal(a: string, b: string)
    ensures NameLe(a, b) || NameLe(b, a)
  {
    if a != [] && b != [] && a[0] == b[0] {
      NameLeTotal(a[1..], b[1..]);
    }
  }

  lemma {:induction false} NameLeAntisymmetric(a: string, b: string)
    requires NameLe(a, b) && NameLe(b, a)
    ensures a == b
  {
    if a != [] {
      NameLeAntisymmetric(a[1..], b[1..]);
      assert a == [a[0]] + a[1..] && b == [b[0]] + b[1..];
    }
  }

  /** Whether `a` may stand before `b` in a ranking by `c`: a higher score, or the same score
      and a name that does not come later. This is the source's comparator returning a value
      that is not positive. */
  predicate RanksBefore(c: Category, a: Toy, b: Toy) {
    Score(a, c) > Score(b, c) || (Score(a, c) == Score(b, c) && NameLe(a.name, b.name))
  }

  /** The sign `localeCompare` gives under the lexicographic name order. */
  function NameCompare(a: string, b: string): (r: int)
    ensures r == 0 <==> a == b
    ensures r < 0 <==> NameLe(a, b) && a != b
    ensures -1 <= r <= 1
  {
    NameLeReflexive(a);
    if NameLe(a, b) && NameLe(b, a) then NameLeAntisymmetric(a, b); 0
    else if NameLe(a, b) then -1
    else 1
  }

  /** The comparator handed to `sort`: the score difference `b - a`, and on a tie the name
      comparison. */
  function Comparator(c: Category, a: Toy, b: Toy): int {
    var diff := Score(b, c) - Score(a, c);
    if diff != 0 then diff else NameCompare(a.name, b.name)
  }

  /** `RanksBefore` is exactly the comparator giving a value that is not positive, and the
      comparator gives 0 exactly on a tie. */
  lemma RanksBeforeIsComparator(c: Category, a: Toy, b: Toy)
    ensures RanksBefore(c, a, b) <==> Comparator(c, a, b) <= 0
    ensures SameRank(c, a, b) <==> Comparator(c, a, b) == 0
  {
    if NameLe(a.name, b.name) && NameLe(b.name, a.name) {
      NameLeAntisymmetric(a.name, b.name);
    }
    if a.name == b.name {
      NameLeReflexive(a.name);
    }
  }

  /** Whether the comparator finds `a` and `b` equal: same score and same name. */
  predicate SameRank(c: Category, a: Toy, b: Toy) {
    Score(a, c) == Score(b, c) && a.name == b.name
  }

  /** Two records the comparator can order both ways are tied. */
  lemma RanksBeforeBothWays(c: Category, a: Toy, b: Toy)
    requires RanksBefore(c, a, b) && RanksBefore(c, b, a)
    ensures SameRank(c, a, b)
  {
    if Score(a, c) == Score(b, c) {
      NameLeAntisymmetric(a.name, b.name);
    }
  }

  /** A sequence in ranking order: score descending, then name ascending. */
  predicate Ranked(c: Category, s: seq<Toy>) {
    forall i, j :: 0 <= i < j < |s| ==> RanksBefore(c, s[i], s[j])
  }

  /** The records of `s` that are tied with `t`, in their order in `s`. */
  function Peers(c: Category, s: seq<Toy>, t: Toy): seq<Toy> {
    if s == [] then []
    else (if SameRank(c, s[0], t) then [s[0]] else []) + Peers(c, s[1..], t)
  }

  /** Puts `x` before the first record it may stand before. */
  function Insert(c: Category, x: Toy, s: seq<Toy>): seq<Toy> {
    if s == [] then [x]
    else if RanksBefore(c, x, s[0]) then [x] + s
    else [s[0]] + Insert(c, x, s[1..])
  }

  /** The stable sort by the source's comparator (the language's `Array.prototype.sort` is stable). */
  function SortForRanking(c: Category, s: seq<Toy>): seq<Toy> {
    if s == [] then [] else Insert(c, s[0], SortForRanking(c, s[1..]))
  }

  lemma {:induction false} InsertPermutes(c: Category, x: Toy, s: seq<Toy>)
    ensures multiset(Insert(c, x, s)) == multiset(s) + multiset{x}
  {
    if s != [] && !RanksBefore(c, x, s[0]) {
      InsertPermutes(c, x, s[1..]);
      assert s == [s[0]] + s[1..];
    }
  }

  lemma {:induction false} InsertRanked(c: Category, x: Toy, s: seq<Toy>)
    requires Ranked(c, s)
    ensures Ranked(c, Insert(c, x, s))
  {
    if s == [] {
    } else if RanksBefore(c, x, s[0]) {
      var r := [x] + s;
      forall i, j | 0 <= i < j < |r| ensures RanksBefore(c, r[i], r[j]) {
        if i == 0 && j > 1 {
          RanksBeforeTransitive(c, x, s[0], s[j - 1]);
        }
      }
    } else {
      NameLeTotal(x.name, s[0].name);
      assert RanksBefore(c, s[0], x);
      InsertRanked(c, x, s[1..]);
      InsertPermutes(c, x, s[1..]);
      var tail := Insert(c, x, s[1..]);
      var r := [s[0]] + tail;
      forall i, j | 0 <= i < j < |r| ensures RanksBefore(c, r[i], r[j]) {
        if i == 0 {
          assert r[j] in multiset(tail);
          assert r[j] in multiset(s[1..]) + multiset{x};
          if r[j] != x {
            assert r[j] in s[1..];
          }
        }
      }
    }
  }

  lemma RanksBeforeTransitive(c: Category, a: Toy, b: Toy, d: Toy)
    requires RanksBefore(c, a, b) && RanksBefore(c, b, d)
    ensures RanksBefore(c, a, d)
  {
    if Score(a, c) == Score(b, c) == Score(d, c) {
      NameLeTransitive(a.name, b.name, d.name);
    }
  }

  lemma {:induction false} NameLeTransitive(a: string, b: string, d: string)
    requires NameLe(a, b) && NameLe(b, d)
    ensures NameLe(a, d)
  {
    if a != [] && a[0] == b[0] == d[0] {
      NameLeTransitive(a[1..], b[1..], d[1..]);
    }
  }

  /** The sorted roster is in ranking order and holds exactly the input records. */
  lemma {:induction false} SortForRankingIsRankedPermutation(c: Category, s: seq<Toy>)
    ensures Ranked(c, SortForRanking(c, s))
    ensures multiset(SortForRanking(c, s)) == multiset(s)
  {
    if s != [] {
      SortForRankingIsRankedPermutation(c, s[1..]);
      InsertRanked(c, s[0], SortForRanking(c, s[1..]));
      InsertPermutes(c, s[0], SortForRanking(c, s[1..]));
      assert s == [s[0]] + s[1..];
    }
  }

  lemma {:induction false} InsertPeers(c: Category, x: Toy, s: seq<Toy>, t: Toy)
    ensures Peers(c, Insert(c, x, s), t) == Peers(c, [x], t) + Peers(c, s, t)
  {
    if s == [] {
      assert Peers(c, [x], t) == Peers(c, [x], t) + [];
    } else if RanksBefore(c, x, s[0]) {
      assert ([x] + s)[1..] == s;
    } else {
      InsertPeers(c, x, s[1..], t);
      var r := [s[0]] + Insert(c, x, s[1..]);
      assert r[1..] == Insert(c, x, s[1..]);
      if SameRank(c, x, t) {
        NameLeReflexive(x.name);
        assert !SameRank(c, s[0], t);
      }
    }
  }

  /** The sort is stable: records the comparator ties keep their relative order. */
  lemma {:induction false} SortForRankingIsStable(c: Category, s: seq<Toy>, t: Toy)
    ensures Peers(c, SortForRanking(c, s), t) == Peers(c, s, t)
  {
    if s != [] {
      SortForRankingIsStable(c, s[1..], t);
      InsertPeers(c, s[0], SortForRanking(c, s[1..]), t);
    }
  }

  lemma RankedTail(c: Category, r: seq<Toy>)
    requires Ranked(c, r) && r != []
    ensures Ranked(c, r[1..])
  {
    forall i, j | 0 <= i < j < |r[1..]| ensures RanksBefore(c, r[1..][i], r[1..][j]) {
      assert r[1..][i] == r[i + 1] && r[1..][j] == r[j + 1];
    }
  }

  lemma PeersCons(c: Category, r: seq<Toy>, t: Toy)
    requires r != []
    ensures Peers(c, r, t) == Peers(c, [r[0]], t) + Peers(c, r[1..], t)
  {
    assert [r[0]][1..] == [];
  }

  /** The first records of two rankings of the same records are tied. */
  lemma RankedHeadsTied(c: Category, r1: seq<Toy>, r2: seq<Toy>)
    requires Ranked(c, r1) && Ranked(c, r2) && multiset(r1) == multiset(r2) && r1 != []
    ensures r2 != [] && SameRank(c, r1[0], r2[0])
  {
    assert |r2| == |multiset(r2)| == |r1|;
    var a, b := r1[0], r2[0];
    assert b in multiset(r1) && a in multiset(r2);
    assert RanksBefore(c, a, b) by {
      var j :| 0 <= j < |r1| && r1[j] == b;
      if j == 0 { NameLeReflexive(a.name); }
    }
    assert RanksBefore(c, b, a) by {
      var j :| 0 <= j < |r2| && r2[j] == a;
      if j == 0 { NameLeReflexive(a.name); }
    }
    RanksBeforeBothWays(c, a, b);
  }

  /** Two rankings of the same records that keep every tie in the same order start alike. */
  lemma RankedHeadsEqual(c: Category, r1: seq<Toy>, r2: seq<Toy>)
    requires Ranked(c, r1) && Ranked(c, r2) && multiset(r1) == multiset(r2) && r1 != []
    requires Peers(c, r1, r1[0]) == Peers(c, r2, r1[0])
    ensures r2 != [] && r1[0] == r2[0]
  {
    RankedHeadsTied(c, r1, r2);
    PeersCons(c, r1, r1[0]);
    PeersCons(c, r2, r1[0]);
    assert Peers(c, r1, r1[0])[0] == r1[0];
    assert Peers(c, r2, r1[0])[0] == r2[0];
  }

  /** Dropping a common first record keeps the records and the order of ties alike. */
  lemma TailsAgree(c: Category, r1: seq<Toy>, r2: seq<Toy>)
    requires r1 != [] && r2 != [] && r1[0] == r2[0] && multiset(r1) == multiset(r2)
    requires forall t :: Peers(c, r1, t) == Peers(c, r2, t)
    ensures multiset(r1[1..]) == multiset(r2[1..])
    ensures forall t :: Peers(c, r1[1..], t) == Peers(c, r2[1..], t)
  {
    assert r1 == [r1[0]] + r1[1..] && r2 == [r1[0]] + r2[1..];
    assert multiset(r1) == multiset{r1[0]} + multiset(r1[1..]);
    assert multiset(r2) == multiset{r1[0]} + multiset(r2[1..]);
    assert multiset(r1[1..]) == multiset(r1) - multiset{r1[0]};
    assert multiset(r2[1..]) == multiset(r2) - multiset{r1[0]};
    forall t ensures Peers(c, r1[1..], t) == Peers(c, r2[1..], t) {
      PeersCons(c, r1, t);
      PeersCons(c, r2, t);
      var h := Peers(c, [r1[0]], t);
      assert Peers(c, r1[1..], t) == Peers(c, r1, t)[|h|..];
      assert Peers(c, r2[1..], t) == Peers(c, r2, t)[|h|..];
    }
  }

  /** Two sequences in ranking order that hold the same records, and the records of each tie in
      the same order, are equal. */
  lemma {:induction false} RankedStableUnique(c: Category, r1: seq<Toy>, r2: seq<Toy>)
    requires Ranked(c, r1) && Ranked(c, r2) && multiset(r1) == multiset(r2)
    requires forall t :: Peers(c, r1, t) == Peers(c, r2, t)
    ensures r1 == r2
  {
    if r1 == [] {
      assert |r2| == |multiset(r2)| == 0;
    } else {
      RankedHeadsEqual(c, r1, r2);
      TailsAgree(c, r1, r2);
      RankedTail(c, r1);
      RankedTail(c, r2);
      RankedStableUnique(c, r1[1..], r2[1..]);
      assert r1 == [r1[0]] + r1[1..] && r2 == [r2[0]] + r2[1..];
    }
  }

  /** The sorted roster is the only sequence in ranking order that holds the roster's records and
      keeps every tie in roster order: stable sorting by the comparator determines the ranking. */
  lemma SortForRankingIsUnique(c: Category, s: seq<Toy>, r: seq<Toy>)
    requires Ranked(c, r) && multiset(r) == multiset(s)
    requires forall t :: Peers(c, r, t) == Peers(c, s, t)
    ensures r == SortForRanking(c, s)
  {
    SortForRankingIsRankedPermutation(c, s);
    forall t ensures Peers(c, r, t) == Peers(c, SortForRanking(c, s), t) {
      SortForRankingIsStable(c, s, t);
    }
    RankedStableUnique(c, r, SortForRanking(c, s));
  }

  /** `Array.prototype.slice(0, end)` for an integer `end`: a negative `end` counts from the back.
      The result is a prefix of `s`. */
  function SliceTo(s: seq<Toy>, end: int): (r: seq<Toy>)
    ensures |r| <= |s| && r == s[..|r|]
    ensures end >= 0 ==> |r| == Min(end, |s|)
    ensures end < 0 ==> |r| == Max(|s| + end, 0)
  {
    var k := if end >= 0 then Min(end, |s|) else Max(|s| + end, 0);
    s[..k]
  }

  /** The limit `getRanking` applies when its caller gives none. */
  const DefaultLimit: int := 10

  /** `getRanking(category, limit)` over the roster `toys`; `toys` itself is not changed. The
      result is a prefix of the sorted roster, in ranking order, and takes each record at most as
      often as the roster holds it. */
  function GetRanking(toys: seq<Toy>, c: Category, limit: int): (r: seq<Toy>)
    ensures |r| <= |SortForRanking(c, toys)| && r == SortForRanking(c, toys)[..|r|]
    ensures Ranked(c, r)
    ensures multiset(r) <= multiset(toys)
  {
    var full := SortForRanking(c, toys);
    SortForRankingIsRankedPermutation(c, toys);
    var r := SliceTo(full, limit);
    assert full == r + full[|r|..];
    RankedPrefix(c, full, |r|);
    r
  }

  /** A prefix of a ranked sequence is ranked, and every element after it ranks no better than
      every element in it. */
  lemma RankedPrefix(c: Category, full: seq<Toy>, k: nat)
    requires Ranked(c, full) && k <= |full|
    ensures Ranked(c, full[..k])
    ensures forall t, u :: t in full[..k] && u in multiset(full) - multiset(full[..k]) ==> RanksBefore(c, t, u)
  {
    var r, rest := full[..k], full[k..];
    assert full == r + rest;
    assert multiset(full) == multiset(r) + multiset(rest);
    forall t, u | t in r && u in multiset(full) - multiset(r) ensures RanksBefore(c, t, u) {
      assert u in multiset(rest);
      var i :| 0 <= i < |r| && r[i] == t;
      var j :| 0 <= j < |rest| && rest[j] == u;
      assert full[i] == t && full[k + j] == u;
    }
  }

  /** The sorted copy has as many records as the roster. */
  lemma SortForRankingLength(c: Category, toys: seq<Toy>)
    ensures |SortForRanking(c, toys)| == |toys|
  {
    SortForRankingIsRankedPermutation(c, toys);
    assert |SortForRanking(c, toys)| == |multiset(SortForRanking(c, toys))|;
  }

  /** For a non-negative limit the ranking is the best `min(limit, |toys|)` records of the roster
      in ranking order: a prefix of their sorted permutation, and every record left out ranks
      no better than every record kept. */
  lemma GetRankingTopRecords(toys: seq<Toy>, c: Category, limit: int)
    requires limit >= 0
    ensures |GetRanking(toys, c, limit)| == Min(limit, |toys|)
    ensures GetRanking(toys, c, limit) == SortForRanking(c, toys)[..Min(limit, |toys|)]
    ensures Ranked(c, GetRanking(toys, c, limit))
    ensures multiset(GetRanking(toys, c, limit)) <= multiset(toys)
    ensures forall t, u :: t in GetRanking(toys, c, limit) && u in multiset(toys) - multiset(GetRanking(toys, c, limit))
                           ==> RanksBefore(c, t, u)
  {
    var full := SortForRanking(c, toys);
    SortForRankingIsRankedPermutation(c, toys);
    SortForRankingLength(c, toys);
    var k := Min(limit, |toys|);
    var g := GetRanking(toys, c, limit);
    assert g == SliceTo(full, limit);
    assert g == full[..k];
    RankedPrefix(c, full, k);
  }

  /** A negative limit `-k` drops the last `k` records of the sorted roster (`slice(0, -k)`),
      rather than giving an empty ranking. */
  lemma GetRankingNegativeLimit(toys: seq<Toy>, c: Category, limit: int)
    requires limit < 0
    ensures |GetRanking(toys, c, limit)| == Max(|toys| + limit, 0)
    ensures GetRanking(toys, c, limit) == SortForRanking(c, toys)[..Max(|toys| + limit, 0)]
  {
    SortForRankingLength(c, toys);
  }

  /** Ranking the empty roster gives nothing. */
  lemma GetRankingEmpty(c: Category, limit: int)
    ensures GetRanking([], c, limit) == []
  {
  }

  /** Two records with strength 7 named "Bunny" and "Ant" and one with strength 9 named "Zed"
      rank by strength as "Zed", "Ant", "Bunny". */
  lemma GetRankingExample(a: Toy, b: Toy, z: Toy)
    requires a.strength == 7 && a.name == "Bunny"
    requires b.strength == 7 && b.name == "Ant"
    requires z.strength == 9 && z.name == "Zed"
    ensures GetRanking([a, b, z], Strength, DefaultLimit) == [z, b, a]
  {
    assert NameLe(b.name, a.name);
    assert !NameLe(a.name, b.name);
    assert [a, b, z][1..] == [b, z] && [b, z][1..] == [z];
    assert SortForRanking(Strength, [z]) == [z];
    assert [z][1..] == [] && [z, b][1..] == [b];
    assert Insert(Strength, b, [z]) == [z] + Insert(Strength, b, []) == [z, b];
    assert SortForRanking(Strength, [b, z]) == [z, b];
    assert Insert(Strength, a, [b]) == [b, a];
    assert Insert(Strength, a, [z, b]) == [z] + Insert(Strength, a, [b]) == [z, b, a];
    assert SortForRanking(Strength, [a, b, z]) == Insert(Strength, a, [z, b]);
  }
}
