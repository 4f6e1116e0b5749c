/** `toyStorage`: the built-in seed roster, loading the roster from the device's key-value
    storage with its fallbacks, and writing it back. */
module Storage {
  import opened Wrappers
  import opened ToyTypes

  /** `STORAGE_KEY`: the one key the roster is kept under. */
  const StorageKey: string := "cuddly-ranking::toys"

  /** `SEED_TOYS`. Every timestamp is the clock reading taken when the module is loaded. */
  function SeedToys(seedTime: int): (r: seq<Toy>)
    ensures |r| == 3 && AllStatsInRange(r)
    ensures forall i :: 0 <= i < |r| ==> r[i].createdAt == seedTime && r[i].updatedAt == seedTime
  {
    [ Toy("seed-bear", "Teddy Thunder", Some("Brown bear from grandma. Loyal bodyguard."), None,
          7, 4, 6, seedTime, seedTime),
      Toy("seed-bunny", "Bunny Blaze", Some("Fastest hopper in the crew."), None,
          5, 8, 5, seedTime, seedTime),
      Toy("seed-dragon", "Lil Dragon", Some("Sleeps all day but breathes fire at night."), None,
          8, 6, 3, seedTime, seedTime) ]
  }

  /** The seed roster has three records with distinct ids, and every stat in range. */
  lemma SeedToysFacts(seedTime: int)
    ensures |SeedToys(seedTime)| == 3
    ensures SeedToys(seedTime)[0].id == "seed-bear"
    ensures SeedToys(seedTime)[1].id == "seed-bunny"
    ensures SeedToys(seedTime)[2].id == "seed-dragon"
    ensures forall i, j :: 0 <= i < j < |SeedToys(seedTime)| ==> SeedToys(seedTime)[i].id != SeedToys(seedTime)[j].id
    ensures AllStatsInRange(SeedToys(seedTime))
  {
    var s := SeedToys(seedTime);
    assert s[0].id[5] == 'b' && s[1].id[5] == 'b' && s[2].id[5] == 'd';
    assert s[0].id[6] == 'e' && s[1].id[6] == 'u';
  }

  /** A record as it was found in storage: its timestamps may be null or missing. */
  datatype StoredToy = StoredToy(
    id: string,
    name: string,
    description: Option<string>,
    photoUri: Option<string>,
    strength: int,
    speed: int,
    smartness: int,
    createdAt: Option<int>,
    updatedAt: Option<int>)

  /** One element of the parsed array: `null`, which `toy.createdAt` throws on, or a record. */
  datatype StoredItem = NullItem | Item(toy: StoredToy)

  /** What one key of the key-value storage holds, as `JSON.parse` sees it: the empty string,
      text that does not parse, JSON that is not an array, or an array. */
  datatype Blob = EmptyText | Malformed | NonArray | JsonArray(items: seq<StoredItem>)

  /** What `AsyncStorage.getItem` gives: it throws, finds nothing, or finds a value. */
  datatype ReadResult = ReadThrew | NoEntry | Entry(blob: Blob)

  /** The device's key-value storage. */
  type Device = map<string, Blob>

  /** A read of `key` that does not throw. */
  function ReadKey(device: Device, key: string): ReadResult {
    if key in device then Entry(device[key]) else NoEntry
  }

  /** The record `loadToys` makes of a stored one: missing timestamps become `now`. */
  function Backfill(s: StoredToy, now: int): (r: Toy)
    ensures s.createdAt.Some? ==> r.createdAt == s.createdAt.value
    ensures s.createdAt.None? ==> r.createdAt == now
    ensures s.updatedAt.Some? ==> r.updatedAt == s.updatedAt.value
    ensures s.updatedAt.None? ==> r.updatedAt == now
    ensures s.createdAt.Some? && s.updatedAt.Some? ==> Encode(r) == s
  {
    Toy(s.id, s.name, s.description, s.photoUri, s.strength, s.speed, s.smartness,
        match s.createdAt case Some(t) => t case None => now,
        match s.updatedAt case Some(t) => t case None => now)
  }

  /** Whether the parsed array holds a `null` element. */
  predicate HasNull(items: seq<StoredItem>) {
    exists i :: 0 <= i < |items| && items[i].NullItem?
  }

  /** `loadToys`: the seed roster when the read throws, finds nothing or the empty string, when
      the text does not parse or is not an array, or when an element is `null`; otherwise the
      stored records with their timestamps filled in. */
  function LoadToys(read: ReadResult, seedTime: int, now: int): (r: seq<Toy>)
    ensures || r == SeedToys(seedTime)
            || (read.Entry? && read.blob.JsonArray? && !HasNull(read.blob.items)
                && |r| == |read.blob.items|)
    ensures r == [] ==> read == Entry(JsonArray([]))
  {
    match read
    case ReadThrew => SeedToys(seedTime)
    case NoEntry => SeedToys(seedTime)
    case Entry(EmptyText) => SeedToys(seedTime)
    case Entry(Malformed) => SeedToys(seedTime)
    case Entry(NonArray) => SeedToys(seedTime)
    case Entry(JsonArray(items)) =>
      if HasNull(items) then SeedToys(seedTime)
      else seq(|items|, i requires 0 <= i < |items| => Backfill(items[i].toy, now))
  }

  /** Every source of failure falls back to the seed roster, never to an empty one. */
  lemma LoadToysFallsBack(read: ReadResult, seedTime: int, now: int)
    requires || read.ReadThrew? || read.NoEntry?
             || (read.Entry? && !read.blob.JsonArray?)
             || (read.Entry? && read.blob.JsonArray? && HasNull(read.blob.items))
    ensures LoadToys(read, seedTime, now) == SeedToys(seedTime)
    ensures |LoadToys(read, seedTime, now)| == 3
  {
  }

  /** A stored array comes back in the same order and length with every field copied, except
      that a missing timestamp is replaced by `now` and a present one kept. */
  lemma LoadToysStoredArray(items: seq<StoredItem>, seedTime: int, now: int)
    requires !HasNull(items)
    ensures var r := LoadToys(Entry(JsonArray(items)), seedTime, now);
      && |r| == |items|
      && forall i :: 0 <= i < |items| ==>
        var s := items[i].toy;
        && r[i].id == s.id && r[i].name == s.name && r[i].description == s.description
        && r[i].photoUri == s.photoUri
        && r[i].strength == s.strength && r[i].speed == s.speed && r[i].smartness == s.smartness
        && (s.createdAt.Some? ==> r[i].createdAt == s.createdAt.value)
        && (s.createdAt.None? ==> r[i].createdAt == now)
        && (s.updatedAt.Some? ==> r[i].updatedAt == s.updatedAt.value)
        && (s.updatedAt.None? ==> r[i].updatedAt == now)
  {
  }

  /** A record as `JSON.stringify` writes it: both timestamps present. */
  function Encode(t: Toy): StoredToy {
    StoredToy(t.id, t.name, t.description, t.photoUri, t.strength, t.speed, t.smartness,
              Some(t.createdAt), Some(t.updatedAt))
  }

  /** The array `JSON.stringify(toys)` writes. */
  function EncodeAll(toys: seq<Toy>): (r: seq<StoredItem>)
    ensures |r| == |toys| && !HasNull(r)
    ensures forall i :: 0 <= i < |r| ==> r[i].toy.id == toys[i].id
  {
    seq(|toys|, i requires 0 <= i < |toys| => Item(Encode(toys[i])))
  }

  /** Loading what was written gives back the roster that was written, whatever the clock says
      and whether or not the roster is empty. */
  lemma LoadEncoded(toys: seq<Toy>, seedTime: int, now: int)
    ensures LoadToys(Entry(JsonArray(EncodeAll(toys))), seedTime, now) == toys
  {
    var items := EncodeAll(toys);
    assert !HasNull(items);
    var r := LoadToys(Entry(JsonArray(items)), seedTime, now);
    assert forall i :: 0 <= i < |toys| ==> r[i] == toys[i];
  }

  /** The error a failing storage write rejects with. */
  type StorageError = string

  /** What `AsyncStorage.setItem` does: stores the value, or throws. */
  datatype WriteResult = Written | WriteThrew(error: StorageError)

  /** The storage after a write, and whether `persistToys` resolved or rejected. */
  datatype Persisted = Persisted(device: Device, outcome: Outcome<StorageError>)

  /** `persistToys`: writes the whole roster under the one key, or rethrows the write's error. */
  function PersistToys(device: Device, toys: seq<Toy>, write: WriteResult): (r: Persisted)
    ensures write.Written? ==> r.outcome.Pass?
    ensures write.Written? ==> r.device.Keys == device.Keys + {StorageKey}
    ensures write.Written? ==> r.device[StorageKey] == JsonArray(EncodeAll(toys))
    ensures write.Written? ==> forall k :: k in device && k != StorageKey ==> r.device[k] == device[k]
    ensures write.WriteThrew? ==> r.outcome == Fail(write.error) && r.device == device
  {
    match write
    case Written => Persisted(device[StorageKey := JsonArray(EncodeAll(toys))], Pass)
    case WriteThrew(e) => Persisted(device, Fail(e))
  }

  /** After a successful write, loading the roster gives back exactly the roster written. */
  lemma PersistThenLoad(device: Device, toys: seq<Toy>, seedTime: int, now: int)
    ensures LoadToys(ReadKey(PersistToys(device, toys, Written).device, StorageKey), seedTime, now) == toys
  {
    LoadEncoded(toys, seedTime, now);
  }
}
