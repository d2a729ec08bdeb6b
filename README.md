# Persistence and image helpers of the Gora Arrantzale Gazteak site, in Dafny

The site keeps all of its content (news, history, leaders, volunteers,
photos, sign-ups) through one module, `lib/storage.ts`. It has three parts:
- `localDB`: a key-value shim over the browser's `localStorage`. Each
  collection is one whole JSON list under the key `"gora_" + name`.
- `dbService`: a CRUD façade over named collections. It works on the local
  store unless a remote document store is configured and initialised.
- Two image helpers, which shrink an image and upload it to an image host.

This project models that module and proves what it promises.

- `wrappers.dfy` (`Wrappers`): `Option` and `Result`.
- `js_number.dfy` (`JsNumber`): JavaScript's `Number(string)` and the decimal
  rendering behind `Date.now().toString()`.
- `records.dfy` (`Records`): schema-loose records (field name to value),
  truthiness, the sort key `Number(year || año) || 0`, and the object spreads
  that stamp `id`, `createdAt` and `updatedAt`.
- `year_sort.dfy` (`YearSort`): the stable sort `getAll` applies. It is proved
  to be the only stable, non-increasing arrangement of its input.
- `list_ops.dfy` (`ListOps`): `findIndex` by id, the merge of `update`, and
  the `filter` of `delete`.
- `local_store.dfy` (`LocalStore`): the key scheme, and the class `LocalDb`
  whose `store` map is updated in place by `Save` and `ClearAll`. Whether a
  write fits the browser quota is a predicate `fits` that the store gets at
  construction.
- `config.dfy` (`Config`): when the remote store and the image host count as
  configured.
- `images.dfy` (`Images`): the resize rule of `optimizeImage` over exact
  rationals, and the guard and result selection of `uploadToCloudinary`.
- `db_service.dfy` (`DbService`): the class `Service`. Remote calls are
  parameters that receive what the call sends and answer as the remote
  store would.
- `scenarios.dfy` (`Scenarios`): client methods checked against the
  contracts alone:
  - delete after two adds;
  - an id collision within one millisecond;
  - a quota failure;
  - clearing storage;
  - the whole image-then-store flow for one news item.

Behaviour of `lib/storage.ts` that the model keeps as written:
- Remote `add`, `update` and `delete` have no local fallback. A remote
  failure is returned as `Err(RemoteFailure)` and the local store is left
  untouched.
- The sort key is only `Number(year || año) || 0`. No free-text field is
  scanned for a year, and there is no `createdAt` tie-break: equal years keep
  their stored order, because the sort is stable.
- Local ids are the clock's milliseconds in decimal, so two adds in the same
  millisecond get the same id (`Scenarios.SameMillisecondCollides`). Ids are
  not unique.
- Local `update` spreads the whole patch, `id` included, while the remote
  path strips `id`.
- `delete` ignores a failed local write.
- `optimizeImage` caps only the longer side (the width when the image is
  wider than tall, else the height). Both sides end up within the box only
  when the box is square (`Images.FittedWithinSquareBox`,
  `Images.OnlyLongerSideIsCapped`).

## Model

| member | source | states |
|---|---|---|
| `Config.ShippedIsLocalOnly` | lib/storage.ts:13-42 | with the shipped placeholder settings neither the remote store nor the image host is configured |
| `DbService.Service.constructor` | lib/storage.ts:28-36 | the remote store is active exactly when it is configured and its initialisation succeeded |
| `JsNumber.StringToNumber` | lib/storage.ts:125-126 | `Number(s)` of a string of white space only (the empty string included) is 0; a string holding a character other than a digit, white space, a sign or a point is NaN |
| `JsNumber.Decimal` | lib/storage.ts:134 | `toString()` of a non-negative integer is a non-empty digit string without leading zero whose value is the integer |
| `JsNumber.NumberOfDecimal` | lib/storage.ts:125-126 | `Number` of that decimal rendering reads back the same number |
| `JsNumber.TrimStart` | lib/storage.ts:125 | `Number` strips exactly the leading JavaScript white space |
| `JsNumber.TrimEnd` | lib/storage.ts:125 | `Number` strips exactly the trailing JavaScript white space |
| `Records.ToNumber` | lib/storage.ts:125-126 | `Number` of a number is itself; `Number(undefined)` is NaN |
| `Records.DecimalYearKey` | lib/storage.ts:125-126 | a record whose `year` is the digits of y sorts under y, whatever its `año` |
| `Records.NumericAnoKey` | lib/storage.ts:125-126 | with a falsy `year`, a non-zero numeric `año` is the sort key |
| `Records.StringAndNumberYearsAgree` | lib/storage.ts:125-126 | a positive year sorts the same whether stored as text or as a number |
| `Records.NonNumericYearHidesAno` | lib/storage.ts:125-126 | a truthy `year` holding a character no number can contain sorts under 0, whatever the record's `año` holds |
| `Records.NoYearKeyIsZero` | lib/storage.ts:125-126 | a record with neither `year` nor `año` sorts under 0 |
| `Records.Stamp` | lib/storage.ts:134 | the added record is `data` with `id` set to the decimal clock value and `createdAt` to the ISO time, every other field kept |
| `Records.Merge` | lib/storage.ts:147 | the updated record has the patch's fields over the old ones, `updatedAt` over both, and the union of their fields |
| `Records.MergeIdempotent` | lib/storage.ts:147 | merging the same patch twice gives the record of merging it once |
| `Records.RemoteAddFields` | lib/storage.ts:139 | the remote add sends `data` with `createdAt` set and nothing else changed |
| `Records.RemoteUpdateFields` | lib/storage.ts:154-155 | the remote update sends the patch without `id`, with `updatedAt` set |
| `Records.FromRemote` | lib/storage.ts:119 | a remote document reads as its fields with `id` set to the document id |
| `YearSort.SortDesc` | lib/storage.ts:124-128 | the sort returns a permutation of its input |
| `YearSort.SortDescNonIncreasing` | lib/storage.ts:124-128 | the sort orders by non-increasing key |
| `YearSort.SortDescStable` | lib/storage.ts:124-128 | records with equal keys keep their relative order |
| `YearSort.StableSortIsUnique` | lib/storage.ts:124-128 | two non-increasing arrangements with the same per-key subsequences are equal, so every stable sort gives the same result |
| `YearSort.SortByYearCharacterized` | lib/storage.ts:124-128 | a list is what `getAll` returns for a source list exactly when it is non-increasing in the year key and keeps each year's records in source order |
| `DbService.FromDocs` | lib/storage.ts:119 | the remote read yields one record per document, in document order, each carrying its document id |
| `DbService.Service.GetAll` | lib/storage.ts:112-129 | the result is the stable non-increasing sort of the local list when the remote store is inactive or its read throws, and of the remote documents otherwise; nothing is written |
| `ListOps.FirstMatch` | lib/storage.ts:145 | the index is the first position whose `id` is strictly equal to the given id, or -1 exactly when none is |
| `ListOps.PatchedAt` | lib/storage.ts:144-150 | an absent id leaves the list unchanged; otherwise only the first matching position changes, to the merge of its record with the patch, and every other position is kept |
| `ListOps.PatchKeepsIds` | lib/storage.ts:144-150 | a patch that carries no `id`, or carries the id being updated, keeps every record's id, so the updated record stays where a later lookup finds it |
| `ListOps.PatchedIdempotent` | lib/storage.ts:144-150 | repeating an update with the same patch and time leaves the same list, for a patch that carries no `id` or the id being updated |
| `ListOps.WithoutId` | lib/storage.ts:161 | the filtered list holds exactly the records of the input that do not carry the id |
| `ListOps.WithoutIdConcat` | lib/storage.ts:161 | the filter keeps the relative order of what it keeps |
| `ListOps.WithoutIdCounts` | lib/storage.ts:161 | every record without the id keeps its number of occurrences and every record with it is removed |
| `ListOps.WithoutAbsentId` | lib/storage.ts:161 | deleting an id that no record carries leaves the list as it was |
| `ListOps.WithoutIdIdempotent` | lib/storage.ts:161 | deleting twice is deleting once |
| `LocalStore.Key` | lib/storage.ts:90 | a collection's key starts with `gora_` and the rest of it is the collection name |
| `LocalStore.Write` | lib/storage.ts:95 | a write sets the collection's key to the new list and leaves every other key unchanged |
| `LocalStore.Cleared` | lib/storage.ts:101-104 | what `clearAll` leaves is exactly the keys not starting with `gora_`, with their values |
| `LocalStore.KeyInjective` | lib/storage.ts:90 | distinct collections live under distinct keys |
| `LocalStore.AppKeysAreCollectionKeys` | lib/storage.ts:101-104 | the keys `clearAll` removes are exactly the keys of collections |
| `LocalStore.ReadAfterWrite` | lib/storage.ts:89-99 | a saved list is read back by its own collection and by no other; an unset key reads as the empty list |
| `LocalStore.ClearedReadsEmpty` | lib/storage.ts:89-104 | after `clearAll` every collection reads as the empty list |
| `LocalStore.LocalDb.Get` | lib/storage.ts:89-92 | `get` reads the list under the collection's key, or the empty list when unset |
| `LocalStore.LocalDb.Save` | lib/storage.ts:93-100 | `save` reports whether the write fits; on success the collection's key holds the list, on failure nothing changes |
| `LocalStore.LocalDb.ClearAll` | lib/storage.ts:101-104 | the new store is the old one without its `gora_` keys |
| `DbService.Service.Add` | lib/storage.ts:131-140 | locally: the stamped record is stored at the front of the old list and returned, or, if the list does not fit, `QUOTA_EXCEEDED` with the store unchanged; remotely: `data` with `createdAt` is sent, the local store is untouched and a remote failure is returned |
| `DbService.Service.Update` | lib/storage.ts:142-156 | locally: an absent id writes nothing and throws nothing; a present one writes the list with the first match merged, or throws `QUOTA_EXCEEDED` with the store unchanged; remotely: the patch without `id` plus `updatedAt` is sent, local untouched |
| `DbService.Service.Delete` | lib/storage.ts:158-165 | locally: never throws, and the store holds the list without the id's records, or is unchanged if that write does not fit; remotely: the delete is sent, local untouched |
| `DbService.Service.ClearStorage` | lib/storage.ts:110 | the local store loses every `gora_` key and keeps all others |
| `Images.Fitted` | lib/storage.ts:50-56 | the drawn size never exceeds the image in either side and keeps its width:height ratio; a wider-than-tall image has its width capped at `maxWidth`, any other its height at `maxHeight` |
| `Images.FitDimensions` | lib/storage.ts:50-56 | the step-by-step reassignments of `width` and `height` compute that size |
| `Images.OptimizeImage` | lib/storage.ts:44-68 | a decodable image is re-encoded at its fitted size with the given quality (by default a 400x400 box at quality 0.5); an undecodable one comes back unchanged |
| `Images.FittingImageUnchanged` | lib/storage.ts:52-56 | an image already inside its box keeps its size |
| `Images.FittedWithinSquareBox` | lib/storage.ts:52-56 | with a square box both sides end up inside it |
| `Images.FittedIdempotent` | lib/storage.ts:52-56 | optimizing an optimized image does not resize it again |
| `Images.OnlyLongerSideIsCapped` | lib/storage.ts:52-56 | with a non-square box the shorter side may stay larger than its limit (1000x900 in 1200x300 stays 1000x900) |
| `Images.UploadToCloudinary` | lib/storage.ts:71-86 | the result differs from the input only for a non-empty `data:image` input with the host configured and a reply carrying a non-empty `secure_url`, and then it is that URL |
| `Images.UploadKeepsReferences` | lib/storage.ts:72 | a value that is not an inline image comes back unchanged whatever the host answers |
| `Images.UploadIdempotent` | lib/storage.ts:72-84 | a hosted URL returned by an upload is never uploaded again |

## Left out

- The Firebase SDK (`initializeApp`, `getDocs`, `addDoc`, `updateDoc`,
  `deleteDoc`) is a foreign remote service. The remote store is not state
  here: each remote call is a function parameter that gets the collection,
  the id and the fields it would send, and answers with success or failure.
  Whether `initializeApp` threw is the constructor's `initSucceeded`.
- The browser side of `optimizeImage` is not modelled: `Image` decoding,
  the canvas, the white fill, drawing, and JPEG encoding. The decoded size is
  a parameter (`None` for `onerror`) and the encoder is a function parameter.
  The canvas truncates its width and height to integers; the model keeps
  exact rational sizes.
- The upload's `fetch`/`FormData` exchange, the upload preset and the
  endpoint URL are not modelled. The host's reply is a parameter.
- `JSON.stringify`/`JSON.parse` are assumed to round-trip. The store holds
  parsed lists, so the `data ? ... : []` case of a stored empty string
  cannot occur.
- The browser quota is the store's `fits` predicate, not a byte count.
- `window.location.reload()` after `clearAll`, `console.warn`, and the
  clock reads (`Date.now()`, `new Date().toISOString()`) are not modelled.
  The clock values are parameters.
- Asynchrony is not modelled: each service call runs to completion before
  the next starts.
- Records.Value: field values are strings, finite numbers, arrays of strings
  and `undefined`/`null`. Booleans, nested objects, other arrays and NaN or
  Infinity numbers are not modelled. JSON storage turns NaN and Infinity
  into `null` anyway. `Absent` stands for both `undefined` and `null`.
  `Number` differs on the two (NaN and 0), but the sort key is 0 either way.
- Records.SortYear: `Number` yields a double, while the model reads years
  as exact rationals. Two year strings that round to the same double (such
  as "2020" and "2020.0000000000000001") tie in JavaScript and keep their
  stored order; the model sorts the second first.
- JsNumber.StringToNumber: reads an optional sign and a decimal literal with
  an optional fraction. Exponents (`1e3`), `Infinity` and `0x`/`0o`/`0b`
  literals are numbers in JavaScript but NaN here, so such a year sorts
  under 0 in the model.
- The React components, `App.tsx` and `types.ts` are rendering, form state
  and event wiring around this module. This includes the `inscription_added`
  window event.
