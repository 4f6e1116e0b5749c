/** The pure parts of the roster store: `buildToy`, and the list each of `addToy`, `updateToy`,
    `deleteToy` and `getToy` computes from the current roster. */
module Roster {
  import opened Wrappers
  import opened Text
  import opened ToyTypes

  /** `value?.trim()`: trims a present string and leaves an absent one absent. */
  function TrimOption(o: Option<string>): (r: Option<string>)
    ensures r.None? <==> o.None?
    ensures o.Some? ==> r.value == Trim(o.value)
  {
    match o
    case None => None
    case Some(s) => Some(Trim(s))
  }

  /** `buildToy`, with the generated id and the clock reading passed in. */
  function BuildToy(draft: ToyDraft, now: int, id: string): (t: Toy)
    ensures t.id == id && t.createdAt == t.updatedAt == now
    ensures t.StatsInRange()
  {
    Toy(id, Trim(draft.name), TrimOption(draft.description), draft.photoUri,
        ClampStat(draft.strength), ClampStat(draft.speed), ClampStat(draft.smartness),
        now, now)
  }

  /** A built record carries the id given, the trimmed name and description, the photo as it
      was, the clamped stats, and the same creation and update time. */
  lemma BuildToyFields(draft: ToyDraft, now: int, id: string)
    ensures var t := BuildToy(draft, now, id);
      && t.id == id
      && t.name == Trim(draft.name) && t.description == TrimOption(draft.description)
      && t.photoUri == draft.photoUri
      && t.strength == ClampStat(draft.strength)
      && t.speed == ClampStat(draft.speed)
      && t.smartness == ClampStat(draft.smartness)
      && t.createdAt == t.updatedAt == now
      && t.StatsInRange()
  {
  }

  /** A built record's name is already trimmed, and it is empty exactly when the draft's name
      is all whitespace: `buildToy` does not reject such a name. */
  lemma BuildToyName(draft: ToyDraft, now: int, id: string)
    ensures Trim(BuildToy(draft, now, id).name) == BuildToy(draft, now, id).name
    ensures BuildToy(draft, now, id).name == [] <==> AllWhitespace(draft.name)
  {
    TrimIdempotent(draft.name);
    TrimEmptyIff(draft.name);
  }

  /** The record `updateToy` puts in place of a matching one: the draft's fields, the record's
      own id and creation time, and `now` as the update time. */
  function Revise(t: Toy, draft: ToyDraft, now: int): (r: Toy)
    ensures r == BuildToy(draft, now, t.id).(createdAt := t.createdAt)
    ensures r.id == t.id && r.createdAt == t.createdAt && r.updatedAt == now
    ensures r.StatsInRange()
  {
    t.(name := Trim(draft.name), description := TrimOption(draft.description),
       photoUri := draft.photoUri,
       strength := ClampStat(draft.strength), speed := ClampStat(draft.speed),
       smartness := ClampStat(draft.smartness), updatedAt := now)
  }

  /** The list `updateToy` computes: every record with the id revised, the others kept. */
  function UpdateMatching(toys: seq<Toy>, id: string, draft: ToyDraft, now: int): (r: seq<Toy>)
    ensures |r| == |toys|
    ensures forall i :: 0 <= i < |toys| && toys[i].id != id ==> r[i] == toys[i]
    ensures forall i :: 0 <= i < |toys| && toys[i].id == id ==> r[i] == Revise(toys[i], draft, now)
  {
    if toys == [] then []
    else
      [if toys[0].id == id then Revise(toys[0], draft, now) else toys[0]]
      + UpdateMatching(toys[1..], id, draft, now)
  }

  /** The list `deleteToy` computes: the records without the id. */
  function RemoveId(toys: seq<Toy>, id: string): (r: seq<Toy>)
    ensures forall t :: multiset(r)[t] == if t.id == id then 0 else multiset(toys)[t]
    ensures IsSubsequence(r, toys)
  {
    if toys == [] then []
    else
      var rest := RemoveId(toys[1..], id);
      assert toys == [toys[0]] + toys[1..];
      SubsequenceCons(rest, toys);
      if toys[0].id == id then rest else [toys[0]] + rest
  }

  /** Whether `a` is `b` with some elements taken out, the rest in their order. */
  predicate IsSubsequence(a: seq<Toy>, b: seq<Toy>) {
    a == [] || (b != [] && ((a[0] == b[0] && IsSubsequence(a[1..], b[1..])) || IsSubsequence(a, b[1..])))
  }

  lemma SubsequenceCons(a: seq<Toy>, b: seq<Toy>)
    requires b != [] && IsSubsequence(a, b[1..])
    ensures IsSubsequence(a, b) && IsSubsequence([b[0]] + a, b)
  {
    assert ([b[0]] + a)[1..] == a;
  }

  /** `toys.find(t => t.id === id)`: the first record with the id, if any. */
  function FindToy(toys: seq<Toy>, id: string): (r: Option<Toy>)
    ensures r.None? <==> forall i :: 0 <= i < |toys| ==> toys[i].id != id
    ensures r.Some? ==> exists i :: 0 <= i < |toys| && toys[i] == r.value && toys[i].id == id
                                   && forall k :: 0 <= k < i ==> toys[k].id != id
  {
    if toys == [] then None
    else if toys[0].id == id then Some(toys[0])
    else
      FindToy(toys[1..], id)
  }

  /** Any two results of a first-match search are the same record. */
  lemma FindToyFirstMatch(toys: seq<Toy>, id: string, i: nat)
    requires i < |toys| && toys[i].id == id
    requires forall k :: 0 <= k < i ==> toys[k].id != id
    ensures FindToy(toys, id) == Some(toys[i])
  {
    var r := FindToy(toys, id);
    var j :| 0 <= j < |toys| && toys[j] == r.value && toys[j].id == id
             && forall k :: 0 <= k < j ==> toys[k].id != id;
    assert !(j < i) && !(i < j);
  }

  /** `updateToy`'s result: the revised first matching record, or none when no record has the id,
      in which case the list is unchanged. */
  lemma UpdateMatchingFind(toys: seq<Toy>, id: string, draft: ToyDraft, now: int)
    ensures FindToy(toys, id).None? ==> UpdateMatching(toys, id, draft, now) == toys
    ensures FindToy(UpdateMatching(toys, id, draft, now), id)
         == match FindToy(toys, id)
            case None => None
            case Some(t) => Some(Revise(t, draft, now))
  {
    var r := UpdateMatching(toys, id, draft, now);
    var found := FindToy(toys, id);
    if found.Some? {
      var i :| 0 <= i < |toys| && toys[i] == found.value && toys[i].id == id
               && forall k :: 0 <= k < i ==> toys[k].id != id;
      FindToyFirstMatch(r, id, i);
    } else {
      assert r == toys;
    }
  }

  /** Deleting an id that no record has changes nothing. */
  lemma RemoveIdAbsent(toys: seq<Toy>, id: string)
    requires forall i :: 0 <= i < |toys| ==> toys[i].id != id
    ensures RemoveId(toys, id) == toys
  {
    if toys != [] {
      RemoveIdAbsent(toys[1..], id);
      assert toys == [toys[0]] + toys[1..];
    }
  }

  /** Deleting twice is deleting once. */
  lemma RemoveIdIdempotent(toys: seq<Toy>, id: string)
    ensures RemoveId(RemoveId(toys, id), id) == RemoveId(toys, id)
  {
    var r := RemoveId(toys, id);
    forall i | 0 <= i < |r| ensures r[i].id != id {
      assert multiset(r)[r[i]] > 0;
    }
    RemoveIdAbsent(r, id);
  }

  /** Creating a record keeps every stat of the roster in range. */
  lemma AppendKeepsStatsInRange(toys: seq<Toy>, draft: ToyDraft, now: int, id: string)
    requires AllStatsInRange(toys)
    ensures AllStatsInRange(toys + [BuildToy(draft, now, id)])
  {
  }

  /** Updating keeps every stat of the roster in range. */
  lemma UpdateKeepsStatsInRange(toys: seq<Toy>, id: string, draft: ToyDraft, now: int)
    requires AllStatsInRange(toys)
    ensures AllStatsInRange(UpdateMatching(toys, id, draft, now))
  {
  }

  /** Deleting keeps every stat of the roster in range. */
  lemma RemoveKeepsStatsInRange(toys: seq<Toy>, id: string)
    requires AllStatsInRange(toys)
    ensures AllStatsInRange(RemoveId(toys, id))
  {
    var r := RemoveId(toys, id);
    forall i | 0 <= i < |r| ensures r[i].StatsInRange() {
      assert multiset(r)[r[i]] > 0;
      assert r[i] in multiset(toys);
    }
  }
}
