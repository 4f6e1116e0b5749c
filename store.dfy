/** `ToysProvider`: the roster store the screens read and change. */
module Store {
  import opened Wrappers
  import opened ToyTypes
  import opened Roster
  import Ranking
  import opened Storage

  /** The provider's state: the roster (`toysRef.current`, which the rendered `toys` copies),
      the `loading` flag, and the device storage the roster is written to. */
  class ToysStore {
    var toys: seq<Toy>
    var loading: bool
    var device: Device

    /** Whether the stored copy is the roster as it is in memory. */
    ghost predicate InSync()
      reads this
    {
      ReadKey(device, StorageKey) == Entry(JsonArray(EncodeAll(toys)))
    }

    /** A provider that has mounted: an empty roster, still loading. */
    constructor (device: Device)
      ensures toys == [] && loading && this.device == device
    {
      toys := [];
      loading := true;
      this.device := device;
    }

    /** The load effect: reads the stored roster (the read may throw), replaces the roster with
        what `loadToys` gives, and stops loading. */
    method Initialize(readThrows: bool, seedTime: int, now: int)
      modifies this
      ensures toys == LoadToys(if readThrows then ReadThrew else ReadKey(old(device), StorageKey), seedTime, now)
      ensures !loading && device == old(device)
    {
      var read := if readThrows then ReadThrew else ReadKey(device, StorageKey);
      toys := LoadToys(read, seedTime, now);
      loading := false;
    }

    /** `setAndPersist`: the new roster takes effect at once and is then written; a failed write
        rejects but leaves the new roster in memory. */
    method SetAndPersist(next: seq<Toy>, write: WriteResult) returns (outcome: Outcome<StorageError>)
      modifies this
      ensures toys == next && loading == old(loading)
      ensures Persisted(device, outcome) == PersistToys(old(device), next, write)
      ensures write.Written? ==> outcome.Pass? && InSync()
      ensures write.WriteThrew? ==> outcome == Fail(write.error) && device == old(device)
    {
      toys := next;
      var p := PersistToys(device, next, write);
      device, outcome := p.device, p.outcome;
    }

    /** `addToy`: appends the built record; resolves with it, or rejects with the write's error. */
    method AddToy(draft: ToyDraft, now: int, id: string, write: WriteResult)
      returns (r: Result<Toy, StorageError>)
      modifies this
      ensures toys == old(toys) + [BuildToy(draft, now, id)] && loading == old(loading)
      ensures device == PersistToys(old(device), toys, write).device
      ensures r == if write.Written? then Ok(BuildToy(draft, now, id)) else Err(write.error)
      ensures AllStatsInRange(old(toys)) ==> AllStatsInRange(toys)
    {
      var toy := BuildToy(draft, now, id);
      if AllStatsInRange(toys) {
        AppendKeepsStatsInRange(toys, draft, now, id);
      }
      var outcome := SetAndPersist(toys + [toy], write);
      r := if outcome.Pass? then Ok(toy) else Err(outcome.error);
    }

    /** `updateToy`: revises every record with the id and resolves with the first of them, or
        with none when no record has the id; the roster is written in both cases. */
    method UpdateToy(id: string, draft: ToyDraft, now: int, write: WriteResult)
      returns (r: Result<Option<Toy>, StorageError>)
      modifies this
      ensures toys == UpdateMatching(old(toys), id, draft, now) && loading == old(loading)
      ensures device == PersistToys(old(device), toys, write).device
      ensures r == if write.Written? then Ok(FindToy(toys, id)) else Err(write.error)
      ensures FindToy(old(toys), id).None? ==> toys == old(toys)
      ensures AllStatsInRange(old(toys)) ==> AllStatsInRange(toys)
    {
      UpdateMatchingFind(toys, id, draft, now);
      if AllStatsInRange(toys) {
        UpdateKeepsStatsInRange(toys, id, draft, now);
      }
      var next := UpdateMatching(toys, id, draft, now);
      var updated := FindToy(next, id);
      var outcome := SetAndPersist(next, write);
      r := if outcome.Pass? then Ok(updated) else Err(outcome.error);
    }

    /** `deleteToy`: drops the records with the id and writes the roster. */
    method DeleteToy(id: string, write: WriteResult) returns (outcome: Outcome<StorageError>)
      modifies this
      ensures toys == RemoveId(old(toys), id) && loading == old(loading)
      ensures Persisted(device, outcome) == PersistToys(old(device), toys, write)
      ensures AllStatsInRange(old(toys)) ==> AllStatsInRange(toys)
    {
      if AllStatsInRange(toys) {
        RemoveKeepsStatsInRange(toys, id);
      }
      outcome := SetAndPersist(RemoveId(toys, id), write);
    }

    /** `getToy`: the first record with the id in the current roster. */
    function GetToy(id: string): (r: Option<Toy>)
      reads this
      ensures r.None? <==> forall i :: 0 <= i < |toys| ==> toys[i].id != id
      ensures r.Some? ==> exists i :: 0 <= i < |toys| && toys[i] == r.value && toys[i].id == id
                                     && forall k :: 0 <= k < i ==> toys[k].id != id
    {
      FindToy(toys, id)
    }

    /** `getRanking`: ranks a copy of the current roster; the roster itself is only read. */
    function GetRanking(c: Category, limit: int): (r: seq<Toy>)
      reads this
      ensures Ranking.Ranked(c, r) && multiset(r) <= multiset(toys)
      ensures limit >= 0 ==> |r| == Min(limit, |toys|)
    {
      Ranking.GetRankingTopRecords(toys, c, Max(limit, 0));
      Ranking.GetRanking(toys, c, limit)
    }
  }

  /** A store whose last write succeeded comes back with the same roster when the app restarts. */
  method Restart(store: ToysStore, seedTime: int, now: int) returns (reloaded: ToysStore)
    requires store.InSync()
    ensures fresh(reloaded)
    ensures reloaded.toys == store.toys && !reloaded.loading && reloaded.device == store.device
  {
    reloaded := new ToysStore(store.device);
    reloaded.Initialize(false, seedTime, now);
    LoadEncoded(store.toys, seedTime, now);
  }
}
