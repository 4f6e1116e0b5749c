# Cuddly Crew roster store, modelled in Dafny

Cuddly Crew is a small mobile app that keeps a roster of toy characters. Each toy has three
stats (strength, speed, smartness) in [1, 10], and the app ranks the roster by one stat or by
the sum of all three. This project models the logic under the screens and proves properties
of it:

- `toy.dfy` (module `ToyTypes`): the `Toy` and `ToyDraft` records, the ranking categories,
  the empty draft, and `clampStat`. A JavaScript number is `NaN`, an infinity or an exact real.
  Rounding is `Math.round`, which is `Floor(x + 1/2)`.
- `text.dfy` (module `Text`): JavaScript's `String.prototype.trim`, with the exact ECMAScript
  set of whitespace and line-terminator characters.
- `roster.dfy` (module `Roster`): `buildToy`, plus the list that `addToy`, `updateToy`,
  `deleteToy` and `getToy` each compute from the current roster (append, `map`, `filter`,
  `find`).
- `ranking.dfy` (module `Ranking`): `getValueForCategory` and `getRanking`. The sort is the
  language's stable `Array.prototype.sort` with the source's comparator, written as a stable
  insertion sort. The `slice(0, limit)` is modelled exactly, including negative limits.
- `storage.dfy` (module `Storage`): the seed roster, `loadToys` with each of its fallbacks to
  the seed roster and timestamp backfill, and `persistToys`, which writes under the single key
  or rethrows.
- `store.dfy` (module `Store`): class `ToysStore`, standing for the `ToysProvider` component.
  It has three fields:
  - `toys`, the roster held in `toysRef.current`;
  - `loading`;
  - `device`, the key-value storage the roster is written to.

  Its methods are the load effect, `setAndPersist`, `addToy`, `updateToy` and `deleteToy`. The
  two reads, `getToy` and `getRanking`, are functions.

Values the source takes from the environment are parameters:
- generated ids;
- `Date.now()` readings;
- whether a read of the storage throws;
- whether a write succeeds or what error it throws.

The storage holds what `JSON.parse` would make of the stored text (`Blob`): the empty string,
unparseable text, a non-array value, or an array whose elements are `null` or records.
`JSON.stringify` followed by `JSON.parse` is taken to give back the same records (`EncodeAll`).

The code behaves as follows, and the model keeps this:
- Creating a record does not reject an empty or all-whitespace name. The check lives in the
  form screen (app/(tabs)/toys/form.tsx:84-87). `Roster.BuildToyName` shows such a name becomes
  the empty string.
- `updateToy` on an id no record has still writes the roster. It then resolves with no record.
- `getRanking` with a negative limit `-k` drops the last `k` records. It does not give an empty
  ranking.
- Ids are not guaranteed distinct, so nothing is claimed about their uniqueness. Nor is
  `updatedAt >= createdAt` claimed, since that depends on the clock.

## Model

| member | source | states |
|---|---|---|
| ToyTypes.ClampStat | src/types/toy.ts:42-45 | the result is always in [1, 10], and NaN gives 1 |
| ToyTypes.Round | src/types/toy.ts:44 | `Math.round` on an exact real, `Floor(x + 1/2)`; `RoundIsNearest` states it is the nearest integer with halves rounded up |
| ToyTypes.RoundIsNearest | src/types/toy.ts:44 | rounding gives the nearest integer, and the upper one at a half (`Math.round`) |
| ToyTypes.ClampStatFinite | src/types/toy.ts:44 | a finite input gives its rounded value when that is in [1, 10], 1 when it rounds below 1, and 10 when it rounds above 10 |
| ToyTypes.ClampStatKeepsInRange | src/types/toy.ts:44 | an integer already in [1, 10] is left unchanged |
| ToyTypes.ClampStatIdempotent | src/types/toy.ts:42-45 | clamping a clamped stat changes nothing |
| ToyTypes.ClampStatMonotone | src/types/toy.ts:44 | a larger number, infinities included, never clamps to a smaller stat |
| ToyTypes.RankingCategories | src/types/toy.ts:26-31 | the categories are listed in the order strength, speed, smartness, all; `RankingCategoriesListEachOnce` states that each occurs once |
| ToyTypes.RankingCategoriesListEachOnce | src/types/toy.ts:26-31 | the category list has four entries, covers every category, and repeats none |
| ToyTypes.EmptyDraft | src/types/toy.ts:33-40 | the empty draft has an empty name and no photo, and its three stats of 5 are left at 5 by clamping |
| Text.Trim | src/context/ToysContext.tsx:30-31 | `trim` never lengthens a string, and a non-empty result neither starts nor ends with whitespace; `TrimIsInnerSlice`, `TrimEmptyIff`, `TrimPadded` and `TrimIdempotent` state the rest |
| Text.TrimIsInnerSlice | src/context/ToysContext.tsx:30-31 | `trim` gives a contiguous slice of its input; everything cut from either end is whitespace; the result neither starts nor ends with whitespace |
| Text.TrimEmptyIff | src/context/ToysContext.tsx:30 | a string trims to empty exactly when it is all whitespace |
| Text.TrimPadded | src/context/ToysContext.tsx:30-31 | padding a string that has no whitespace at either end, then trimming it, gives that string back |
| Text.TrimIdempotent | src/context/ToysContext.tsx:30-31 | trimming twice is trimming once |
| Roster.TrimOption | src/context/ToysContext.tsx:31 | `description?.trim()` keeps an absent description absent and trims a present one |
| Roster.BuildToy | src/context/ToysContext.tsx:26-39 | a new record carries the given id, has creation time equal to update time equal to now, and has every stat in range; `BuildToyFields` and `BuildToyName` state each field |
| Roster.BuildToyFields | src/context/ToysContext.tsx:26-39 | a built record has: the given id; the trimmed name and description; the photo unchanged; each stat clamped; creation time equal to update time equal to now; stats in range |
| Roster.BuildToyName | src/context/ToysContext.tsx:30 | a built name is already trimmed, and it is empty exactly when the draft name is all whitespace (no rejection) |
| Roster.Revise | src/context/ToysContext.tsx:91-101 | a revised record is the record `buildToy` would make from the draft with the old id, except that it keeps its own creation time; its update time is now; its stats are in range |
| Roster.UpdateMatching | src/context/ToysContext.tsx:90-103 | the updated list has the same length and order; records with another id are untouched; each record with the id is revised |
| Roster.RemoveId | src/context/ToysContext.tsx:113 | the filtered list holds no record with the id, holds every other record as often as before, and keeps their relative order (a subsequence) |
| Roster.FindToy | src/context/ToysContext.tsx:119 | gives none exactly when no record has the id; otherwise gives the record at the first index holding the id |
| Roster.FindToyFirstMatch | src/context/ToysContext.tsx:119 | the record at the first index with the id is the one found |
| Roster.UpdateMatchingFind | src/context/ToysContext.tsx:88-106 | `updateToy` resolves with the revised first matching record, or with none when the id is absent; in that case the list is unchanged |
| Roster.RemoveIdAbsent | src/context/ToysContext.tsx:111-116 | deleting an id no record has leaves the roster as it is |
| Roster.RemoveIdIdempotent | src/context/ToysContext.tsx:111-116 | deleting twice gives the same roster as deleting once |
| Roster.AppendKeepsStatsInRange | src/context/ToysContext.tsx:79-86 | adding a record to a roster whose stats are in range keeps them in range |
| Roster.UpdateKeepsStatsInRange | src/context/ToysContext.tsx:88-103 | updating keeps every stat of the roster in range |
| Roster.RemoveKeepsStatsInRange | src/context/ToysContext.tsx:111-116 | deleting keeps every stat of the roster in range |
| Ranking.Score | src/context/ToysContext.tsx:41-46 | on a record with stats in range, a single-stat score is in [1, 10] and the `all` score is in [3, 30] |
| Ranking.ScoreMonotone | src/context/ToysContext.tsx:41-46 | a record at least as strong, fast and smart as another scores at least as high in every category |
| Ranking.ScoreAllTracksEachStat | src/context/ToysContext.tsx:41-46 | raising any one stat by `d` raises the `all` score by exactly `d` |
| Ranking.NameLe | src/context/ToysContext.tsx:129 | the name tie-break stands for `localeCompare` as lexicographic order on character codes; the four `NameLe` lemmas below show it is a total order |
| Ranking.NameLeReflexive | src/context/ToysContext.tsx:129 | the name tie-break order is reflexive |
| Ranking.NameLeTotal | src/context/ToysContext.tsx:129 | any two names are ordered one way or the other |
| Ranking.NameLeAntisymmetric | src/context/ToysContext.tsx:129 | names ordered both ways are equal |
| Ranking.NameLeTransitive | src/context/ToysContext.tsx:129 | the name order is transitive |
| Ranking.NameCompare | src/context/ToysContext.tsx:129 | the sign of `localeCompare` under `NameLe`: -1, 0 or 1, 0 exactly on equal names, and negative exactly when the first name comes strictly earlier |
| Ranking.Comparator | src/context/ToysContext.tsx:126-130 | the function handed to `sort`: score of `b` minus score of `a`, then `NameCompare` on a tie; `RanksBeforeIsComparator` ties it to `RanksBefore` |
| Ranking.RanksBefore | src/context/ToysContext.tsx:126-130 | `a` may stand before `b` exactly when the comparator gives a value that is not positive: a higher score, or an equal score and names in `NameLe` order |
| Ranking.RanksBeforeIsComparator | src/context/ToysContext.tsx:126-130 | `RanksBefore` holds exactly when the comparator (score of `b` minus score of `a`, then the name comparison) is not positive, and the comparator is 0 exactly on equal score and equal name |
| Ranking.RanksBeforeBothWays | src/context/ToysContext.tsx:126-130 | two records the comparator orders both ways have the same score and the same name, so it reports them tied |
| Ranking.SortForRanking | src/context/ToysContext.tsx:125-130 | the stable sort by score descending, then name ascending; `SortForRankingIsRankedPermutation`, `SortForRankingIsStable` and `SortForRankingIsUnique` state its properties |
| Ranking.SortForRankingIsRankedPermutation | src/context/ToysContext.tsx:125-130 | the sorted copy is in ranking order (score descending, then name ascending) and is a permutation of the roster |
| Ranking.SortForRankingIsStable | src/context/ToysContext.tsx:125-130 | records the comparator ties keep their roster order in the sorted copy |
| Ranking.RankedStableUnique | src/context/ToysContext.tsx:125-130 | two sequences in ranking order with the same records, and each tie in the same order, are equal |
| Ranking.SortForRankingIsUnique | src/context/ToysContext.tsx:125-130 | any permutation of the roster that is in ranking order and keeps ties in roster order is the sorted copy |
| Ranking.SliceTo | src/context/ToysContext.tsx:131 | `slice(0, end)` gives a prefix: `min(end, size)` records for `end` of 0 or more, and the size less `-end` (never below 0) for a negative `end` |
| Ranking.DefaultLimit | src/context/ToysContext.tsx:124 | a ranking asked for without a limit keeps at most 10 records (`GetRankingExample` uses it) |
| Ranking.GetRanking | src/context/ToysContext.tsx:123-131 | for any limit, the ranking is a prefix of the sorted copy, is in ranking order, and takes each roster record at most as often as the roster holds it |
| Ranking.GetRankingTopRecords | src/context/ToysContext.tsx:123-131 | for a limit of 0 or more, the ranking has `min(limit, size)` records, is a prefix of the sorted copy and is in ranking order; every roster record left out ranks no better than every record kept |
| Ranking.GetRankingNegativeLimit | src/context/ToysContext.tsx:131 | a negative limit `-k` gives the sorted copy without its last `k` records |
| Ranking.GetRankingEmpty | src/context/ToysContext.tsx:123-131 | the empty roster ranks to nothing |
| Ranking.GetRankingExample | src/context/ToysContext.tsx:124-131 | given strength 7 "Bunny", strength 7 "Ant" and strength 9 "Zed", the strength ranking with the default limit is Zed, Ant, Bunny |
| Storage.StorageKey | src/storage/toyStorage.ts:5 | the whole roster lives under the single key `cuddly-ranking::toys`, which `PersistToys` writes and `PersistThenLoad` reads back |
| Storage.SeedToys | src/storage/toyStorage.ts:7-41 | the seed roster has three records, all stats in range, and every timestamp equal to the module-load clock reading |
| Storage.SeedToysFacts | src/storage/toyStorage.ts:7-41 | the seed roster has three records: `seed-bear`, `seed-bunny` and `seed-dragon`, with distinct ids and every stat in range |
| Storage.ReadKey | src/storage/toyStorage.ts:45 | a read that does not throw finds the value under the key, or nothing when the key is absent |
| Storage.Backfill | src/storage/toyStorage.ts:53-57 | a present timestamp is kept and a missing one becomes now; a stored record with both timestamps is given back exactly (encoding the result yields it again) |
| Storage.LoadToys | src/storage/toyStorage.ts:43-62 | the result is either the seed roster or, for a stored array without `null`, one record per stored element; it is empty only when the storage holds an empty array |
| Storage.LoadToysFallsBack | src/storage/toyStorage.ts:43-62 | falls back to the three seed records when: the read throws; there is no entry; the entry is the empty string; the text does not parse; it is not an array; it holds a `null` element |
| Storage.LoadToysStoredArray | src/storage/toyStorage.ts:53-57 | a stored array loads in the same length and order with every field copied; present timestamps are kept and missing ones become now |
| Storage.Encode | src/storage/toyStorage.ts:66 | `JSON.stringify` of one record writes every field with both timestamps present, so `Backfill` gives the record back (`LoadEncoded`) |
| Storage.EncodeAll | src/storage/toyStorage.ts:66 | the written array has one non-null element per record, in order, each with that record's id |
| Storage.LoadEncoded | src/storage/toyStorage.ts:53-57 | loading the array that writing a roster produces gives back that roster, including the empty roster |
| Storage.PersistToys | src/storage/toyStorage.ts:64-71 | a successful write stores the encoded roster under the single key and leaves other keys alone; a failed write rejects with the same error and changes nothing |
| Storage.PersistThenLoad | src/storage/toyStorage.ts:43-71 | after a successful write, reading the key and loading gives back exactly the roster written |
| Store.ToysStore.constructor | src/context/ToysContext.tsx:48-50 | a mounted provider starts with an empty roster and is loading |
| Store.ToysStore.Initialize | src/context/ToysContext.tsx:59-77 | the roster becomes what `loadToys` gives for the storage read, and loading stops |
| Store.ToysStore.SetAndPersist | src/context/ToysContext.tsx:53-57 | the new roster takes effect in memory whether or not the write succeeds; the storage and the outcome are those of `persistToys`; after a successful write the stored copy is the roster |
| Store.ToysStore.AddToy | src/context/ToysContext.tsx:79-86 | the roster becomes the old roster plus the built record; resolves with that record, or rejects with the write error; stats stay in range |
| Store.ToysStore.UpdateToy | src/context/ToysContext.tsx:88-109 | the roster becomes the updated list, which is the old one when the id is absent; the roster is written in every case; resolves with the first record with the id, or none |
| Store.ToysStore.DeleteToy | src/context/ToysContext.tsx:111-116 | the roster becomes the filtered list and is written; stats stay in range |
| Store.ToysStore.GetToy | src/context/ToysContext.tsx:118-121 | gives none exactly when no record has the id, and otherwise the first roster record with that id |
| Store.ToysStore.GetRanking | src/context/ToysContext.tsx:123-134 | ranks the current roster without changing it; the result is in ranking order, draws only on roster records, and has `min(limit, size)` records for a limit of 0 or more |
| Store.Restart | src/context/ToysContext.tsx:59-77 | a fresh provider over storage whose last write succeeded loads exactly the roster that was written |

## Left out

- Rendering, navigation, theming, the splash and welcome screens, the confirmation dialog, and
  the image picker: these are view code with no model.
- React state plumbing: the rendered `toys` state, which always equals `toysRef.current` and so
  is one field here; the `mounted` flag of the load effect; `useToysContext`; `useToyById`,
  which is the same `find` as `getToy` but over the rendered list and returns none for a
  missing or empty id; the `toyStats` constant.
- Asynchrony: mutations are modelled one at a time. Unawaited mutations that race, and a load
  that finishes after a mutation, are not modelled as interleavings. In sequence, a load
  replaces any earlier roster, which `Initialize` captures.
- Id generation from `Date.now()` and `Math.random()`: the id is a parameter.
- Clock readings: each operation takes one `now`. The source reads the clock separately for:
  - each record revised by `updateToy`;
  - each missing timestamp backfilled by `loadToys`;
  - each seed timestamp, read at module load and given here as `seedTime`.
- IEEE floating point: finite numbers are exact reals, and there is no signed zero and no
  rounding error in `x + 0.5`. Record stats and timestamps are integers.
- `localeCompare`: names are compared lexicographically by character code, which is a fixed
  total order and not the device's collation.
- JSON encoding: the text format is not modelled. A `Blob` states what parsing yields. Array
  elements other than `null` and records (numbers, strings, nested arrays) are not modelled,
  nor are records whose fields have other types than the `Toy` type says, nor fields a stored
  record has beyond those of `Toy`, which the spreads in `loadToys` and `updateToy` carry along.
- `console.warn` logging in `loadToys` and `persistToys`.
- A non-integer `limit` for `getRanking`, which `slice` truncates: the limit is an integer, and
  callers that give none get `Ranking.DefaultLimit`.
- Store.ToysStore.GetRanking: its own contract gives order, membership and length. The exact
  result (a prefix of the unique stable sort) is stated by the `Ranking` lemmas about
  `Ranking.GetRanking`, which the function returns.
