# Curse addon provider: lookup-by-id, modelled in Dafny

WowUp's `CurseAddonProvider` answers "what is addon `id` for this game client?"
from the Curse catalog. Once the catalog's JSON entry for the addon has arrived,
`getById` is meant to keep the release files suited to the client (main builds,
not alternate ones, of the client's flavour, `wow_retail` or `wow_classic`), put
the newest (highest `id`) first, and normalize the entry into WowUp's
provider-independent `AddonSearchResult`. That result holds the joined author
names, the id as a string, the default thumbnail, the website, the provider name
"Curse" and one normalized file per selected release file. There is meant to be
no result when the catalog returned nothing or when no file suits the client.

As written, the selection step only reverses the catalog's file list, so every
file is offered and any entry with files gives a result (see "## Findings").
The model follows the intended selection and models the as-written one
separately.

The model is that transform as pure functions over immutable datatypes:

- `wrappers.dfy`: `Option`, standing for the source's `null`/`undefined`.
- `curse_models.dfy`: the catalog's entry, files, modules, attachments and authors.
- `wowup_models.dfy`: the client type, the channel type and the normalized result.
- `text.dfy`: `Array.prototype.join` and integer `toString`. `Join` is proved equal
  to the loop of ECMA-262 section 23.1.3.18. `IntToString` is proved to parse back
  with a decimal parser.
- `file_ordering.dfy`: a stable ascending sort by `id` followed by a reversal.
- `curse_addon_provider.dfy`: the provider's helpers and the `getById` transform.
- `provider_properties.dfy`: lemmas relating the transform's output to its input,
  and concrete catalog entries.

The HTTP response is the `response: Option<CurseSearchResult>` parameter of
`CurseAddonProvider.GetById`. `None` is an empty response.

## Model

| member | source | states |
|---|---|---|
| CurseAddonProvider.ClientTypeString | wowup-electron/src/app/core/addon-providers/curse-addon-provider.ts:150-160 | the tag is "wow_classic" exactly for Classic and ClassicPtr, and "wow_retail" for every other client, including ones the switch does not name |
| CurseAddonProvider.FilterEligible | wowup-electron/src/app/core/addon-providers/curse-addon-provider.ts:144 | every file in the output is a non-alternate file of the flavour; each such input file occurs as often as in the input and no other file occurs |
| CurseAddonProvider.GetLatestFiles | wowup-electron/src/app/core/addon-providers/curse-addon-provider.ts:140-147 | as a multiset, the output is exactly the catalog's files that are not alternate and whose flavour is the client's tag; a file is in it iff it is such a catalog file; ids are non-increasing |
| FileOrdering.InsertByIdSorted | wowup-electron/src/app/core/addon-providers/curse-addon-provider.ts:145 | inserting a file into an id-ascending list keeps it ascending |
| FileOrdering.InsertByIdMultiset | wowup-electron/src/app/core/addon-providers/curse-addon-provider.ts:145 | inserting adds exactly that file: nothing is lost or duplicated |
| FileOrdering.SortByIdSorted | wowup-electron/src/app/core/addon-providers/curse-addon-provider.ts:145 | the sort's output has ascending ids |
| FileOrdering.SortByIdPermutation | wowup-electron/src/app/core/addon-providers/curse-addon-provider.ts:145 | the sort's output is a permutation of its input |
| FileOrdering.SortByIdStable | wowup-electron/src/app/core/addon-providers/curse-addon-provider.ts:145 | the sort is stable: for every id, the files with that id keep their input order |
| FileOrdering.OrderByIdDescending | wowup-electron/src/app/core/addon-providers/curse-addon-provider.ts:145-146 | sorting ascending and then reversing yields non-increasing ids and a permutation of the input |
| FileOrdering.OrderByIdDescendingTies | wowup-electron/src/app/core/addon-providers/curse-addon-provider.ts:145-146 | files sharing an id come out in the reverse of their input order |
| FileOrdering.WithIdReverse | wowup-electron/src/app/core/addon-providers/curse-addon-provider.ts:146 | reversing a list reverses the order of the files of each id |
| ProviderProperties.FilterEligibleAppend | wowup-electron/src/app/core/addon-providers/curse-addon-provider.ts:144 | filtering a concatenation is the concatenation of the filtered parts, so the filter keeps input order |
| ProviderProperties.FilterWithId | wowup-electron/src/app/core/addon-providers/curse-addon-provider.ts:144 | the filter keeps, for every id, the catalog's order among the eligible files with that id |
| ProviderProperties.GetLatestFilesTies | wowup-electron/src/app/core/addon-providers/curse-addon-provider.ts:144-146 | selected files sharing an id come out in the reverse of their order in the catalog's list |
| CurseAddonProvider.ChannelType | wowup-electron/src/app/core/addon-providers/curse-addon-provider.ts:110-120 | the mapping is total: Alpha iff the tag is Alpha, Beta iff it is Beta, Stable for Release and for every unrecognized tag |
| CurseAddonProvider.FirstThumbnailIndex | wowup-electron/src/app/core/addon-providers/curse-addon-provider.ts:136 | the position of the first default attachment with a non-empty URL; absent iff no attachment qualifies |
| CurseAddonProvider.ThumbnailUrl | wowup-electron/src/app/core/addon-providers/curse-addon-provider.ts:135-138 | absent iff no attachment is default with a non-empty URL; otherwise the URL of the first qualifying attachment, which is non-empty |
| Text.JoinLoop | wowup-electron/src/app/core/addon-providers/curse-addon-provider.ts:132 | the join loop of ECMA-262 gives the same string as the recursive definition of `Join`; an empty list gives "" |
| Text.JoinSnoc | wowup-electron/src/app/core/addon-providers/curse-addon-provider.ts:132 | joining one more name appends the separator and that name |
| Text.Join | wowup-electron/src/app/core/addon-providers/curse-addon-provider.ts:132 | `xs.join(sep)`: "" for an empty list; otherwise it starts with the first element and is as long as the elements plus one separator per gap |
| CurseAddonProvider.AuthorNames | wowup-electron/src/app/core/addon-providers/curse-addon-provider.ts:131 | one name per author, in author order |
| CurseAddonProvider.Author | wowup-electron/src/app/core/addon-providers/curse-addon-provider.ts:130-133 | "" without authors; otherwise the string starts with the first author's name and is as long as the names plus ", " per gap |
| ProviderProperties.AuthorExamples | wowup-electron/src/app/core/addon-providers/curse-addon-provider.ts:130-133 | no authors give "", one author gives their name, authors A and B give "A, B" |
| Text.IntToString | wowup-electron/src/app/core/addon-providers/curse-addon-provider.ts:95 | the id's string is non-empty, starts with '-' iff the id is negative, has only decimal digits otherwise with no leading zero (except "0" itself), and parses back to the id |
| Text.IntToStringInjective | wowup-electron/src/app/core/addon-providers/curse-addon-provider.ts:95 | two ids have the same external id string iff they are equal |
| Text.ParseNatToString | wowup-electron/src/app/core/addon-providers/curse-addon-provider.ts:95 | the digits of a non-negative id parse back to it |
| CurseAddonProvider.GetById | wowup-electron/src/app/core/addon-providers/curse-addon-provider.ts:52-63 | no result iff the response is absent or none of its files is eligible for the client; otherwise externalId is the id's decimal string, providerName is "Curse", name, externalUrl, author and thumbnail come from the entry, and there is at least one file |
| CurseAddonProvider.FolderNames | wowup-electron/src/app/core/addon-providers/curse-addon-provider.ts:122-124 | one folder name per module, each the module's `foldername`, in module order |
| CurseAddonProvider.GameVersion | wowup-electron/src/app/core/addon-providers/curse-addon-provider.ts:126-128 | absent iff the file's game-version list is empty; otherwise its first entry |
| CurseAddonProvider.SearchResultFile | wowup-electron/src/app/core/addon-providers/curse-addon-provider.ts:84-90 | the normalized file carries the source file's channel, its name as version, its download URL, its module folders in order and its first game version |
| CurseAddonProvider.AddonSearchResultOf | wowup-electron/src/app/core/addon-providers/curse-addon-provider.ts:76-103 | the result carries the entry's author string, decimal id (which parses back to the id), name, thumbnail and website, the provider name "Curse", and one normalized file per selected file, in order |
| CurseAddonProvider.SearchResultFiles | wowup-electron/src/app/core/addon-providers/curse-addon-provider.ts:83-91 | one normalized file per selected file, in the same order |
| ProviderProperties.GetByIdFiles | wowup-electron/src/app/core/addon-providers/curse-addon-provider.ts:83-91 | the result's files match the selected files of `GetLatestFiles` one for one and in order. Each output file carries its source file's channel, its name as version, its download URL, its modules' folder names in module order, and its first game version (absent when the list is empty) |
| ProviderProperties.GetByIdFileCount | wowup-electron/src/app/core/addon-providers/curse-addon-provider.ts:57-62 | the result has exactly as many files as the entry has eligible files |
| ProviderProperties.RetailEntryScenario | wowup-electron/src/app/core/addon-providers/curse-addon-provider.ts:52-63 | take entry 100 with a retail release file 5 and a classic beta file 9, looked up for Retail. The result has exactly file 5, on channel Stable, with no thumbnail and an empty author |
| CurseAddonProvider.LatestFilesAsWritten | wowup-electron/src/app/core/addon-providers/curse-addon-provider.ts:140-148 | as written, the pipeline returns all the catalog's files in reverse order: a permutation that keeps alternate and other-flavour files |
| CurseAddonProvider.GetByIdAsWritten | wowup-electron/src/app/core/addon-providers/curse-addon-provider.ts:52-63 | with the as-written selection, there is no result only when the response is absent or has no files at all |
| ProviderProperties.AlternateOnlyScenario | wowup-electron/src/app/core/addon-providers/curse-addon-provider.ts:140-148 | take an entry whose only file is an alternate build. The intended selection is empty and the lookup gives no result. The as-written selection returns that alternate build as the result's file |

## Findings

| source | as written | input that shows it | evidently intended | confidence | as-written member | corrected member |
|---|---|---|---|---|---|---|
| wowup-electron/src/app/core/addon-providers/curse-addon-provider.ts:143-147 | `_.flow(_.filter(pred), _.orderBy(key), _.reverse)` with plain lodash (line 8): `filter` and `orderBy` receive the function as their collection and return `[]`, which `flow` flattens away, so only `_.reverse` runs | an entry whose only file is alternate, looked up for Retail: the result offers that alternate file | keep the non-alternate files of the client's flavour, order them by id ascending, then reverse | medium, not executed | CurseAddonProvider.LatestFilesAsWritten, ProviderProperties.AlternateOnlyScenario | CurseAddonProvider.GetLatestFiles |

The rest of the model (`GetById` and the lemmas about it) uses the corrected selection.

## Left out

- The HTTP GET, its URL and the rxjs `pipe`/`map`/`toPromise` plumbing (lines 15, 48-50, 64-65) are network I/O. The fetched entry is the `response` parameter. A transport failure is a rejected promise the transform never sees.
- The methods that only throw "Method not implemented." have no behaviour to model. These are `getAll`, `getFeaturedAddons`, `searchByQuery`, `searchByUrl`, `searchByName`, `isValidAddonUri` and `onPostInstall` (lines 27-45, 68-74).
- The `try`/`catch` with `console.error` in `getAddonSearchResult` (lines 77, 104-106) guards against malformed JSON. Well-typed datatypes cannot be malformed, so the model never takes that path. The logging is a side effect.
- Lodash's currying and flattening rules are not modelled. `LatestFilesAsWritten` states only their outcome on this call.
- The `CurseReleaseType` and `WowClientType` enum files are not part of this model. Their numeric values are abstracted to named constructors plus `Unrecognized(code)`, which stands for any other value reaching a `default` branch.
- `thumbnailUrl` is a string, and JavaScript truthiness (`!!f.thumbnailUrl`) is read as "non-empty". A missing field is treated like "".
- Text.IntToString: matches `Number.prototype.toString` only for integers of magnitude below 10^21; JavaScript prints larger integer values in exponent form ("1e+21"), which the model does not produce. Fractional ids are not modelled.
- Ids are unbounded integers. The source holds them as JavaScript numbers, which represent integers exactly only up to 2^53, so two larger ids that JavaScript would confuse stay distinct in the model.
