# atlas-go: the dataset builds, the query layer and the chain game, modelled in Dafny

atlas-go is a word-chain geography game. The player names a country (or a city) whose first
letter is the last letter of the previous answer, and the computer answers in turn. This project
models the core of the game and proves properties of it:

- **The dataset builds.** `buildCountries` and `buildCities` compile raw records into four
  artifacts. They turn every display name into a canonical key (lower-case, trimmed, without a
  leading "the ", without diacritics, letters `a`-`z` only). From the keys they build:
  - the record list;
  - an alias table from canonical key to id, where a key claimed by two different ids is
    dropped as ambiguous and manual aliases only fill gaps;
  - a letter index from first letter to the sorted ids;
  - the manifest counts.
- **The countries query layer** (`atlas-data.ts`): lookup by id, alias resolution with the
  build's canonicalizer, the countries of a letter, and a random letter.
- **The client-side cities service** (`cities-service.ts`):
  - its own canonicalizer, which keeps digits and keeps a leading article;
  - the matching of search hits against the typed name;
  - the five-minute response cache.
- **The two game pages** (`atlas/page.tsx` and `cities-atlas/page.tsx`). They are classes whose
  fields are the React state variables. Each handler is a method proved equal to one transition
  function of the shared `GameRules` module, and the properties of the game are lemmas about
  those functions:
  - a move is accepted only when it is known, unused and starts with the required letter;
  - the computer never repeats an id;
  - skips never go negative;
  - the clock ends the game at zero.
- **The one-off migration** (`migrate-cities.js`). It finds the base64 literal in the generated
  file and filters the decoded records. Then it transforms them and inserts them in batches of
  1000, retrying one record at a time when a batch is refused.

Modules, one per file:

| File | Module |
|---|---|
| `wrappers.dfy` | `Wrappers` |
| `text.dfy` | `Text` |
| `canon.dfy` | `Canon` |
| `sorting.dfy` | `Sorting` |
| `seqs.dfy` | `Seqs` |
| `random.dfy` | `Random` |
| `alias_table.dfy` | `AliasTable` |
| `letter_index.dfy` | `LetterIndex` |
| `manifest.dfy` | `Manifest` |
| `country_build.dfy` | `CountryBuild` |
| `city_build.dfy` | `CityBuild` |
| `atlas_data.dfy` | `AtlasData` |
| `cities_service.dfy` | `CitiesService` |
| `game_rules.dfy` | `GameRules` |
| `country_game.dfy` | `CountryGame` |
| `city_game.dfy` | `CityGame` |
| `migrate.dfy` | `Migrate` |

The build canonicalizer appears as identical copies in `build-dataset.mjs`,
`build-cities-dataset.mjs` and `atlas-data.ts`. It is modelled once, as `Canon.Canonicalize`.

In these places the model follows the code, which a reader might not expect:

- **Countries without a key are emitted.** The countries build emits every record, including
  one whose display name has an empty key; its letters are then `null`. Only the cities build
  drops records without a key (`CountryBuild.CountriesSpec`, `CityBuild.EmittedSpec`).
- **Two canonicalizers exist.** The runtime canonicalizer of the cities service keeps digits
  and does not strip "the ". The model keeps both. It proves where they agree
  (`CitiesService.RuntimeAgreesWithBuild`) and where they do not
  (`CitiesService.RuntimeKeepsArticle`, `CityGame.FirstMayBeDigit`).
- **Country manual aliases are fixed ids.** The countries build's manual aliases map a key
  straight to a constant id. Only the cities build resolves its manual targets through the
  names it has seen (`cityIdMap`).
- **Table tests are truthiness tests.** "The key is already in the table" is tested by the
  truthiness of the entry. The model keeps that test (`AliasTable.HasEntry`).
- **Cities are resolved by search.** The cities page resolves names through the search
  endpoint and the substring heuristic of `resolveAlias`, not through the cities alias table.

## Model

| member | source | states |
|---|---|---|
| Canon.Canonicalize | scripts/build-dataset.mjs:8-16 | The key holds only the letters `a`-`z`, and an empty input gives the empty key |
| Canon.CanonicalizeIdempotent | scripts/build-dataset.mjs:8-16 | Canonicalizing a key again gives the same key |
| Canon.CanonicalizeKey | scripts/build-dataset.mjs:8-16 | A string of `a`-`z` letters is its own key |
| Canon.CanonicalizeDropsArticle | scripts/build-dataset.mjs:11 | "The X" and "X" have the same key, as long as X (lower-cased and trimmed) is non-empty and does not itself start with "the "; only one article is dropped |
| Canon.StripArticleOnce | scripts/build-dataset.mjs:11 | Stripping the article removes exactly one leading "the " |
| Canon.CanonicalizeNoArticle | scripts/build-dataset.mjs:10-15 | Without a leading article, the key is the letters of the lower-cased input |
| Canon.LettersIgnoreTrim | scripts/build-dataset.mjs:10-15 | Trimming never changes the letters that reach the key |
| Canon.LettersConcat | scripts/build-dataset.mjs:12-14 | The letter filter after NFD distributes over concatenation |
| Canon.Decompose | scripts/build-dataset.mjs:12 | NFD of one character gives one or two characters: the character itself, or a base letter and a combining mark; it is the identity on ASCII and whitespace |
| Canon.Nfd | scripts/build-dataset.mjs:12 | NFD only produces characters of the input, ASCII letters or combining marks |
| Canon.NfdIdentity | scripts/build-dataset.mjs:12 | NFD leaves ASCII and whitespace text unchanged |
| Canon.FirstLetterSpec | scripts/build-dataset.mjs:18-21 | `firstLetter` finds the leftmost `a`-`z` letter, and finds none exactly when the key has none |
| Canon.LastLetterSpec | scripts/build-dataset.mjs:23-26 | `lastLetter` finds the rightmost `a`-`z` letter, and finds none exactly when the key has none |
| Canon.KeyLetters | scripts/build-dataset.mjs:83-85 | On a key, the first and last letters are its first and last characters, and they are absent exactly when the key is empty |
| Text.Lower | scripts/build-dataset.mjs:10 | `toLowerCase` keeps the length and lower-cases character by character |
| Text.LowerChar | scripts/build-dataset.mjs:10 | Lower-casing keeps `a`-`z`, digits and whitespace as they are, and produces `a`-`z` only from a letter |
| Text.TrimSplits | scripts/build-dataset.mjs:10 | `trim()` gives the input with only whitespace removed at both ends |
| Text.TrimmedEnds | scripts/build-dataset.mjs:10 | A non-empty trimmed string neither starts nor ends with whitespace |
| Text.FilterConcat | scripts/build-dataset.mjs:13-14 | The regex replacements that delete a character class distribute over concatenation |
| Text.Filter | scripts/build-dataset.mjs:13-14 | A character-class deletion keeps only the characters of the class, in order, and never lengthens the string |
| Text.LexLeTotal | scripts/build-dataset.mjs:135-137 | The default string order of `sort()` compares any two strings |
| Text.LexLeTransitive | scripts/build-dataset.mjs:135-137 | The default string order is transitive |
| Text.LexLeAntisymmetric | scripts/build-dataset.mjs:135-137 | Two strings that are each ordered before the other are equal |
| Text.DecimalRoundTrip | frontend/scripts/build-cities-dataset.mjs:96 | `id.toString()` loses nothing: reading the digits back gives the number |
| Text.DecimalStringInjective | frontend/scripts/build-cities-dataset.mjs:96 | Different city ids give different id strings |
| Text.SplitJoin | frontend/scripts/build-cities-dataset.mjs:136 | `split(' ')` followed by `join(' ')` gives the name back |
| Text.SplitCount | frontend/scripts/build-cities-dataset.mjs:134-137 | A name splits into at least two words exactly when it contains a space |
| Text.SplitNoSeparator | frontend/scripts/build-cities-dataset.mjs:136 | No word of the split holds a space |
| Sorting.Sort | scripts/build-dataset.mjs:135-137 | `sort()` returns the same ids, as a multiset, in ascending order |
| Sorting.SortedUnique | scripts/build-dataset.mjs:135-137 | There is only one sorted arrangement of a multiset of ids |
| Sorting.SortOrderIndependent | scripts/build-dataset.mjs:135-137 | The sorted list depends only on the ids, not on the order they were pushed |
| Sorting.SortIdempotent | scripts/build-dataset.mjs:135-137 | Sorting a sorted list changes nothing |
| Random.Draw | src/app/atlas/page.tsx:113 | `Math.floor(Math.random() * n)` is an index of the list when the list is not empty |
| Random.DrawSlices | src/app/atlas/page.tsx:113 | Index k is drawn exactly by the rolls in the k-th of n equal slices of [0, 1), so every index is equally likely |
| AliasTable.AddAmbiguous | scripts/build-dataset.mjs:114 | `ambiguousAliases.add(k)` gives the old members plus k |
| AliasTable.AddAmbiguousDistinct | scripts/build-dataset.mjs:114 | Adding to the set of ambiguous keys never repeats a key |
| AliasTable.ClaimAllConcat | scripts/build-dataset.mjs:110-118 | Running the alias loop over two batches is running it over their concatenation |
| AliasTable.ClaimStepTracks | scripts/build-dataset.mjs:110-118 | One step of the alias loop keeps the invariant. A key has an entry exactly when it is non-empty and claimed, and the entry is one of its claimers. The key is ambiguous exactly when another claimer exists |
| AliasTable.ClaimAllTracks | scripts/build-dataset.mjs:110-118 | The invariant holds after the whole alias loop |
| AliasTable.ClaimAllDistinct | scripts/build-dataset.mjs:110-118 | The alias loop never lists a key twice as ambiguous |
| AliasTable.ManualFirst | scripts/build-dataset.mjs:126-129 | The first usable manual id for a key is a manual entry for that key, and none exists exactly when every entry for the key has an empty id |
| AliasTable.ManualAllSpec | scripts/build-dataset.mjs:126-129 | Manual aliases never touch a truthy entry or the ambiguous keys, and a key without an entry gets the first manual id offered for it |
| AliasTable.ManualAllKeepsAmbiguous | scripts/build-dataset.mjs:126-129 | The manual loop never changes the ambiguous keys |
| AliasTable.Final | scripts/build-dataset.mjs:131-133 | After the deletion loop, a key is in the table exactly when it had an entry and is not ambiguous, and its entry is unchanged |
| AliasTable.BuildCharacterization | scripts/build-dataset.mjs:101-133 | In the built table, a non-empty key with exactly one claimer maps to it, and a key with several claimers is absent. An unclaimed key holds the first manual id offered for it, if any. The ambiguous keys are exactly those with several claimers |
| AliasTable.BuildOrderIndependent | scripts/build-dataset.mjs:110-133 | The final table and the ambiguous keys do not depend on the order of the claims |
| AliasTable.TablesAgree | scripts/build-dataset.mjs:110-133 | Claims with the same claimers for every key describe one table |
| AliasTable.SameClaimsSameIds | scripts/build-dataset.mjs:110-118 | The same claims in another order give every key the same claimers |
| AliasTable.NoAmbiguousSurvives | scripts/build-dataset.mjs:131-133 | No ambiguous key survives the build, and the manual loop adds no ambiguous key |
| AliasTable.AmbiguousList | scripts/build-dataset.mjs:141 | The ambiguous list is sorted, repeats nothing, holds exactly the ambiguous keys, and none of them is in the table |
| AliasTable.SoleClaimer | scripts/build-dataset.mjs:110-133 | A non-empty key with a single claimer resolves to it and is not on the ambiguous list |
| AliasTable.ContestedKey | scripts/build-dataset.mjs:110-133 | A key with two different claimers is absent from the table and is on the ambiguous list |
| AliasTable.UnclaimedKey | scripts/build-dataset.mjs:126-133 | A key nobody claims resolves exactly through the first usable manual entry for it |
| AliasTable.Dedup | scripts/build-dataset.mjs:101-108 | A `Set` of aliases holds each alias once, and holds every alias added |
| AliasTable.ClaimsOf | scripts/build-dataset.mjs:110-112 | The claims of a record pair the key of each alias with the record's id, alias by alias |
| AliasTable.AddClaims | scripts/build-dataset.mjs:110-118 | The alias loop of one record ends in the state the fold over its claims describes |
| AliasTable.ApplyManual | scripts/build-dataset.mjs:126-129 | The manual loop ends in the state the fold over the manual entries describes |
| AliasTable.DeleteAmbiguous | scripts/build-dataset.mjs:131-133 | The deletion loop leaves the table `Final` describes |
| AliasTable.DistinctSameMembers | scripts/build-dataset.mjs:141 | Two lists without repetitions and with the same members are permutations of each other |
| AliasTable.SortDistinct | scripts/build-dataset.mjs:141 | Sorting the ambiguous keys keeps them and repeats none |
| LetterIndex.PushAllConcat | scripts/build-dataset.mjs:120-123 | Pushing two batches of records is pushing their concatenation |
| LetterIndex.PushAllSpec | scripts/build-dataset.mjs:120-123 | After the push loop, the index lists each letter once. A letter has a list exactly when some record starts with it, and the list holds those records' ids in input order |
| LetterIndex.BucketCounts | scripts/build-dataset.mjs:120-123 | An id occurs in the list of c as often as a record with first letter c and that id occurs in the input |
| LetterIndex.BucketNonEmpty | scripts/build-dataset.mjs:120-123 | A letter's list is non-empty exactly when some record starts with that letter |
| LetterIndex.BucketPermutation | scripts/build-dataset.mjs:120-123 | The input records in another order give each letter the same ids in another order |
| LetterIndex.SortBuckets | scripts/build-dataset.mjs:135-137 | The final sort keeps the letters and their order, and makes each list a sorted permutation of itself |
| LetterIndex.SortEach | scripts/build-dataset.mjs:135-137 | The sort loop over `Object.keys` sorts every list |
| LetterIndex.BuildSpec | scripts/build-dataset.mjs:120-137 | The built index lists each letter once, has a letter exactly when some record starts with it, and its lists are sorted with the right ids and multiplicities |
| LetterIndex.BuildBucketsOrderIndependent | scripts/build-dataset.mjs:120-137 | The sorted lists do not depend on the order of the input records |
| LetterIndex.OrderCountsKeys | scripts/build-dataset.mjs:159 | `Object.keys(letterIndex)` has one entry per letter with a list |
| Manifest.CountsSpec | scripts/build-dataset.mjs:156-161 | The manifest counts one letter per list and one entry per ambiguous key |
| CountryBuild.ToCountrySpec | scripts/build-dataset.mjs:73-99 | The emitted record has the fallbacks (common name, else cca3; official name, else common name). Its letters are absent exactly when the key of the display name is empty, and are otherwise that key's first and last characters |
| CountryBuild.NonEmpty | scripts/build-dataset.mjs:104-106 | Only the non-empty alternative spellings become aliases |
| CountryBuild.AliasesSpec | scripts/build-dataset.mjs:101-108 | A country's aliases are its two names and its non-empty alternative spellings, each once |
| CountryBuild.BuildCountries | scripts/build-dataset.mjs:64-141 | The build loop and the passes after it produce the dataset `Dataset` describes |
| CountryBuild.CountriesSpec | scripts/build-dataset.mjs:72-99 | Every raw record is emitted once, in input order |
| CountryBuild.EntriesSpec | scripts/build-dataset.mjs:120-123 | The letter index sees one entry per country: its first letter and its id |
| CountryBuild.IdsAreClaimers | scripts/build-dataset.mjs:110-118 | The claimers of a key are exactly the countries with an alias of that key |
| CountryBuild.ClaimerSet | scripts/build-dataset.mjs:110-118 | The claimer set of a key is the set of countries claiming it |
| CountryBuild.ClaimsHaveIds | scripts/build-dataset.mjs:72-118 | Countries with non-empty codes make claims with non-empty ids |
| CountryBuild.SoleClaimResolves | scripts/build-dataset.mjs:110-133 | A non-empty key that one country alone claims resolves to that country and is not ambiguous |
| CountryBuild.ContestedKeyDropped | scripts/build-dataset.mjs:110-133 | A key claimed by two different countries is absent from the table and listed as ambiguous |
| CountryBuild.UnclaimedKeyManual | scripts/build-dataset.mjs:126-133 | A key no country claims resolves exactly when a manual alias names it, and then to the manual country |
| CountryBuild.AmbiguousListSpec | scripts/build-dataset.mjs:141 | The ambiguous list is sorted, repeats nothing, and none of its keys is in the table |
| CountryBuild.LetterIndexSpec | scripts/build-dataset.mjs:120-137 | A letter has a list exactly when some country's key starts with it, and that list is sorted and holds exactly those countries |
| CountryBuild.EntryStartsWith | scripts/build-dataset.mjs:120-123 | An entry of the index input is a country whose key starts with that letter |
| CountryBuild.LetterIndexOnce | scripts/build-dataset.mjs:120-137 | With unique codes, every country with a first letter is listed exactly once under it |
| CountryBuild.ClaimsPermutation | scripts/build-dataset.mjs:72-118 | The same records in another order make the same claims |
| CountryBuild.PermutationHasIds | scripts/build-dataset.mjs:72 | Reordering the records keeps every code present |
| CountryBuild.DatasetOrderIndependent | scripts/build-dataset.mjs:64-141 | The alias table, the sorted letter lists and the ambiguous list do not depend on the order of the REST Countries records |
| CountryBuild.AmbiguousOrderIndependent | scripts/build-dataset.mjs:141 | Claims with the same ambiguous keys give the same sorted ambiguous list |
| CountryBuild.ManifestCountsSpec | scripts/build-dataset.mjs:156-161 | The manifest counts one country per record, one letter per list and one entry per contested key |
| CountryBuild.CountryIdsUnique | scripts/build-dataset.mjs:87-99 | Unique codes give unique ids in the emitted list |
| CountryBuild.LetterListsOfCountries | scripts/build-dataset.mjs:120-137 | A letter's list holds an id exactly when an emitted country with that id has that first letter |
| CountryBuild.CountriesOfLetter | scripts/build-dataset.mjs:83-99 | Starting with a letter, read off the emitted list, is having it as `firstLetter` |
| CityBuild.CountryMapSpec | frontend/scripts/build-cities-dataset.mjs:75-78 | A country id is in the lookup map when some country has it, and maps to the last such country |
| CityBuild.BuildCountryMap | frontend/scripts/build-cities-dataset.mjs:75-78 | The lookup loop builds that map |
| CityBuild.BuildCities | frontend/scripts/build-cities-dataset.mjs:75-201 | The build loop and the passes after it produce the dataset `Dataset` describes |
| CityBuild.Absorb | frontend/scripts/build-cities-dataset.mjs:95-159 | One pass of the record loop appends the record's city and feeds its claims and its index entry. For an emitted record it also records the record's key in `cityIdMap` |
| CityBuild.EmittedSpec | frontend/scripts/build-cities-dataset.mjs:106-111 | A record is emitted exactly when its display name has a non-empty key, and then its letters are the first and last characters of that key |
| CityBuild.FilteredSpec | frontend/scripts/build-cities-dataset.mjs:87-91 | The filter keeps exactly the records whose name has at least two characters |
| CityBuild.CitiesMembers | frontend/scripts/build-cities-dataset.mjs:87-127 | A city is emitted exactly for the records that pass the filter and have a key |
| CityBuild.CitiesOfRecords | frontend/scripts/build-cities-dataset.mjs:87-127 | The same membership, stated over the loop's list of cities |
| CityBuild.CityHasRecord | frontend/scripts/build-cities-dataset.mjs:95-127 | Every emitted city comes from a record that passes the filter and has a key |
| CityBuild.RecordHasCity | frontend/scripts/build-cities-dataset.mjs:95-127 | Every record that passes the filter and has a key yields its city |
| CityBuild.CityRecordSpec | frontend/scripts/build-cities-dataset.mjs:106-124 | An emitted city has a name of at least two characters with a non-empty key, and its letters are that key's first and last characters |
| CityBuild.InitialsAliasSpec | frontend/scripts/build-cities-dataset.mjs:134-141 | The initials alias exists exactly for a name with a space, at most three words and at least two initials. It is two or three characters long, holds no space, and is never the name itself |
| CityBuild.InitialsNoSpace | frontend/scripts/build-cities-dataset.mjs:138 | Initials of words without spaces hold no space |
| CityBuild.InitialsLength | frontend/scripts/build-cities-dataset.mjs:138 | There is at most one initial per word |
| CityBuild.AliasesSpec | frontend/scripts/build-cities-dataset.mjs:130-141 | A city's aliases are its name and, when there is one, its initials, each once |
| CityBuild.IdsAreClaimers | frontend/scripts/build-cities-dataset.mjs:144-152 | The claimers of a key are exactly the emitted cities with an alias of that key |
| CityBuild.ClaimerIsCity | frontend/scripts/build-cities-dataset.mjs:144-152 | A claimer of a key is an emitted city with an alias of that key |
| CityBuild.CityIsClaimer | frontend/scripts/build-cities-dataset.mjs:144-152 | An emitted city with an alias of a key claims that key |
| CityBuild.ClaimerSet | frontend/scripts/build-cities-dataset.mjs:144-152 | The claimer set of a key is the set of cities claiming it |
| CityBuild.ClaimsHaveIds | frontend/scripts/build-cities-dataset.mjs:96 | City ids are decimal strings, never empty |
| CityBuild.SoleClaimResolves | frontend/scripts/build-cities-dataset.mjs:144-189 | A non-empty key that one city alone claims resolves to that city and is not ambiguous |
| CityBuild.OnlyClaimer | frontend/scripts/build-cities-dataset.mjs:144-152 | A key that one city alone claims has that city as its only claimer |
| CityBuild.ContestedKeyDropped | frontend/scripts/build-cities-dataset.mjs:144-189 | A key claimed by two different cities is absent from the table and listed as ambiguous |
| CityBuild.ManualFillsGaps | frontend/scripts/build-cities-dataset.mjs:162-189 | A key no city claims resolves exactly when a manual entry for it names a canonical name that `cityIdMap` holds, and then to that name's id |
| CityBuild.NoClaimer | frontend/scripts/build-cities-dataset.mjs:144-152 | A key no city claims has no claimers |
| CityBuild.ManualTargetsFirst | frontend/scripts/build-cities-dataset.mjs:179-184 | The first usable manual entry for a key is an entry for that key whose canonical name `cityIdMap` holds |
| CityBuild.IdMapValues | frontend/scripts/build-cities-dataset.mjs:127 | Every id in `cityIdMap` is non-empty |
| CityBuild.IdMapSpec | frontend/scripts/build-cities-dataset.mjs:127 | `cityIdMap` has a key when some emitted city has it, and holds the id of the last such city |
| CityBuild.EntriesMembers | frontend/scripts/build-cities-dataset.mjs:155-158 | The letter index sees exactly the filtered, emitted cities, with their first letter and id |
| CityBuild.LetterIndexSpec | frontend/scripts/build-cities-dataset.mjs:155-194 | A letter has a list exactly when some emitted city's key starts with it, and that list is sorted and holds exactly those cities |
| CityBuild.EntryIndexedUnder | frontend/scripts/build-cities-dataset.mjs:155-158 | An entry of the index input is an emitted city indexed under its letter |
| CityBuild.EntryCount | frontend/scripts/build-cities-dataset.mjs:155-158 | With unique ids, no entry reaches the letter index twice |
| CityBuild.LetterIndexOnce | frontend/scripts/build-cities-dataset.mjs:155-194 | With unique ids, every emitted city is listed exactly once under the first letter of its key |
| CityBuild.ManifestCountsSpec | frontend/scripts/build-cities-dataset.mjs:216-221 | The manifest counts one letter per list and one entry per contested key |
| AtlasData.GetCountryByIdSpec | src/lib/atlas-data.ts:8-28 | A country is found exactly when the list has one with that id. The country found carries that id and is the last in the list to carry it |
| AtlasData.ResolveAliasSpec | src/lib/atlas-data.ts:48-51 | An alias resolves exactly when the table has a non-empty id for its key, and then to that id |
| AtlasData.ResolveIgnoresArticle | src/lib/atlas-data.ts:34-51 | "The X" resolves as "X" does |
| AtlasData.ResolveOwnAlias | src/lib/atlas-data.ts:48-51 | Query keys and build keys agree: an alias of a country that no other country claims resolves to that country in the built table |
| AtlasData.KnownSpec | src/lib/atlas-data.ts:61 | `ids.map(getCountryById).filter(Boolean)` keeps exactly the known ids, in order |
| AtlasData.GetCountriesByFirstLetterSpec | src/lib/atlas-data.ts:57-62 | Only the first character counts, case-insensitively, and an input not starting with a letter gives nothing. Every country returned is listed under that letter |
| AtlasData.ByLetterOfList | src/lib/atlas-data.ts:57-62 | Over a list with unique ids and an index that lists letters faithfully, the countries of a letter are exactly those with that first letter |
| AtlasData.CountriesByLetterOfDataset | src/lib/atlas-data.ts:57-62 | Against the built dataset with unique codes, the countries of a letter are exactly the emitted countries with that first letter |
| AtlasData.DatasetListsLetter | src/lib/atlas-data.ts:60 | The built index lists each letter faithfully |
| AtlasData.RandomLetterSpec | src/lib/atlas-data.ts:67-71 | A letter comes back exactly when the index has one, and it always has a list |
| AtlasData.RandomLetterSlices | src/lib/atlas-data.ts:67-71 | Every letter of the index is drawn by an equal share of the random numbers |
| CitiesService.RuntimeCanonicalizeSpec | frontend/src/lib/cities-service.ts:51-58 | The runtime key holds only `a`-`z` and `0`-`9`, so the final `trim()` never removes anything |
| CitiesService.AlnumsConcat | frontend/src/lib/cities-service.ts:54-56 | The runtime filter distributes over concatenation |
| CitiesService.RuntimeCanonicalizeFixes | frontend/src/lib/cities-service.ts:51-58 | A string of `a`-`z` and `0`-`9` is its own runtime key |
| CitiesService.RuntimeCanonicalizeIdempotent | frontend/src/lib/cities-service.ts:51-58 | The runtime canonicalizer is idempotent |
| CitiesService.AlnumsOfArticle | frontend/src/lib/cities-service.ts:54-56 | "the " contributes "the" to a runtime key |
| CitiesService.RuntimeKeepsArticle | frontend/src/lib/cities-service.ts:51-58 | Unlike the build key, the runtime key of "The X" is "the" followed by the runtime key of X |
| CitiesService.NoNewDigits | frontend/src/lib/cities-service.ts:53-55 | Lower-casing, decomposing and dropping marks never create a digit |
| CitiesService.RuntimeAgreesWithBuild | frontend/src/lib/cities-service.ts:51-58 | On names without digits and without a leading article, the runtime key is the build key |
| CitiesService.FirstHitSpec | frontend/src/lib/cities-service.ts:96-100 | The loop returns the id of the first candidate that passes the test, and nothing exactly when none passes |
| CitiesService.MatchFirstAccepting | frontend/src/lib/cities-service.ts:95-100 | The first candidate whose runtime key equals or contains the query's key gives the result |
| CitiesService.MatchFallback | frontend/src/lib/cities-service.ts:103-113 | When no candidate passes, the first one is taken exactly when the query contains its key, and an empty list gives nothing |
| CitiesService.MatchIsCandidate | frontend/src/lib/cities-service.ts:95-113 | A match is always one of the candidates' ids |
| CitiesService.EmptyQueryTakesFirst | frontend/src/lib/cities-service.ts:95-100 | A query whose runtime key is empty matches the first candidate |
| CitiesService.ResolveAliasSpec | frontend/src/lib/cities-service.ts:89-118 | A failed search resolves nothing, and a resolved id is always the id of a returned candidate |
| CitiesService.GetCityById | frontend/src/lib/cities-service.ts:67-76 | The city is `undefined` exactly when the request failed, and otherwise is what it returned |
| CitiesService.SearchKeyShared | frontend/src/lib/cities-service.ts:91 | Two names share a cached search exactly when their runtime keys agree |
| CitiesService.LetterKeyIgnoresCase | frontend/src/lib/cities-service.ts:62 | Both cases of a letter share one cache entry |
| CitiesService.StoreThenLookup | frontend/src/lib/cities-service.ts:16-30 | After storing d under k at time t, a lookup of k gives d until t plus five minutes, and a lookup of any other key is unaffected |
| CitiesService.LookupSound | frontend/src/lib/cities-service.ts:19-26 | A lookup hits exactly when the key was stored less than five minutes before, and returns what was stored |
| CitiesService.ResponseCache.constructor | frontend/src/lib/cities-service.ts:16 | The cache starts empty |
| CitiesService.ResponseCache.Get | frontend/src/lib/cities-service.ts:19-26 | `getCachedData` returns a fresh entry and keeps the cache; on a miss it deletes the key |
| CitiesService.ResponseCache.Set | frontend/src/lib/cities-service.ts:28-30 | `setCachedData` stores the data with the current time |
| CitiesService.ResponseCache.FetchWithCache | frontend/src/lib/cities-service.ts:32-48 | A truthy fresh entry is returned without a request. Otherwise the response is returned: a failure stores nothing (a stale entry is gone), and a success is stored |
| GameRules.GameDurationSpec | src/app/atlas/page.tsx:141-149 | Only the endless mode is unbounded, and every timed mode lasts 60, 90 or 180 seconds |
| GameRules.TimerStepSpec | src/app/atlas/page.tsx:181-194 | The clock stops at zero exactly when one second or less was left, and otherwise loses one second |
| GameRules.TickSpec | src/app/atlas/page.tsx:179-200 | A tick changes nothing unless the clock runs. A running clock ends the game exactly when at most one second was left |
| GameRules.TicksCountDown | src/app/atlas/page.tsx:179-200 | A running clock with t seconds left loses one second per tick and ends the game at exactly the t-th tick, changing nothing else |
| GameRules.TicksEndless | src/app/atlas/page.tsx:179-200 | The endless mode's clock never moves |
| GameRules.TimedGameLength | src/app/atlas/page.tsx:141-200 | A timed game whose clock the first non-blank input started ends after exactly its 60, 90 or 180 ticks, not earlier |
| GameRules.UnusedSpec | src/app/atlas/page.tsx:109-111 | The computer's candidates are exactly the unused ones, in order |
| GameRules.PickComputerMoveSpec | src/app/atlas/page.tsx:108-115 | The computer finds nothing exactly when every candidate is used, and never picks a used one |
| GameRules.SubmitIgnoredSpec | src/app/atlas/page.tsx:223-225 | Nothing happens while the game is over, the computer is thinking, or the input is blank |
| GameRules.SubmitRejects | src/app/atlas/page.tsx:227-252 | The checks run in order: unknown, then already used, then wrong first letter. A rejected move resets the streak and changes nothing else |
| GameRules.SubmitAccepts | src/app/atlas/page.tsx:254-275 | An accepted move is unused and starts with the required letter. It raises the streak, clears the input and hands the turn to the computer. The scheduled reply is a win by glitch exactly when the name has no last letter |
| GameRules.RoundSpec | src/app/atlas/page.tsx:278-307 | The computer never answers with the player's id or a used id. On success both ids are used and the computer's last letter is required. With nothing left the player wins, and the required letter becomes the player's last letter |
| GameRules.FailedReplyBlocks | frontend/src/app/cities-atlas/page.tsx:291-320 | When the computer's fetch throws, `cpuThinking` stays set, and submitting, skipping and giving up do nothing until a new game |
| GameRules.SkipSpec | src/app/atlas/page.tsx:310-323 | A skip is spent only when one is left and play is open, and with none left the game ends. Used ids and streak are kept |
| GameRules.GiveUpSpec | src/app/atlas/page.tsx:325-331 | Giving up ends an open game and changes nothing else, and is ignored while over or thinking, so it is idempotent |
| GameRules.GameOverTerminal | src/app/atlas/page.tsx:179-331 | Once over, the game stays over: submit, skip, give up and the clock change nothing, and typing, a late computer reply or "Play Again" leave it over |
| GameRules.PlayAgainSpec | src/app/atlas/page.tsx:427-433 | "Play Again" clears the mode and nothing else, keeps a finished game's clock stopped and the state valid, and the next game starts as it would have without it |
| GameRules.StartSpec | src/app/atlas/page.tsx:151-171 | A new game has three skips, no streak, no used ids, the mode's full time and an open turn |
| GameRules.PlayerTransitionsKeepValid | src/app/atlas/page.tsx:151-331 | The player's transitions keep the skips within 0 to 3 and the clock non-negative |
| GameRules.TimedTransitionsKeepValid | src/app/atlas/page.tsx:179-307 | The clock and the computer's replies keep the state valid too |
| GameRules.InitialValid | src/app/atlas/page.tsx:118-134 | The initial state is valid and has three skips |
| CountryGame.LookUpSpec | src/app/atlas/page.tsx:227-228 | A typed name becomes a move exactly when its alias resolves to an id the countries list has, and the move is that country's |
| CountryGame.CandidatesSpec | src/app/atlas/page.tsx:109 | Every candidate of the computer is a known country listed under the required letter |
| CountryGame.Page.constructor | src/app/atlas/page.tsx:118-134 | The page starts in the initial state over the built dataset |
| CountryGame.Page.StartGame | src/app/atlas/page.tsx:151-171 | `startGame` is the start transition with a random first letter |
| CountryGame.Page.Reset | src/app/atlas/page.tsx:152-168 | The setters of `startGame` perform the start transition |
| CountryGame.Page.HandlePlayerInput | src/app/atlas/page.tsx:202-207 | `handlePlayerInput` is the input transition: the first non-blank input starts the clock |
| CountryGame.Page.Tick | src/app/atlas/page.tsx:179-200 | One firing of the interval is the tick transition |
| CountryGame.Page.SubmitPlayer | src/app/atlas/page.tsx:222-275 | `submitPlayer` is the submit transition for the country the trimmed input looks up to |
| CountryGame.Page.Play | src/app/atlas/page.tsx:230-275 | After the lookup, the checks and the acceptance are the submit transition |
| CountryGame.Page.RunReply | src/app/atlas/page.tsx:278-307 | A scheduled reply is the respond transition over the countries of the reply's letter |
| CountryGame.Page.Answer | src/app/atlas/page.tsx:267-307 | The body of a reply is the answer transition |
| CountryGame.Page.HandleSkip | src/app/atlas/page.tsx:310-323 | `handleSkip` is the skip transition with a random new letter |
| CountryGame.Page.HandleGiveUp | src/app/atlas/page.tsx:325-331 | `handleGiveUp` is the give-up transition |
| CountryGame.Page.PlayAgain | src/app/atlas/page.tsx:429 | The "Play Again" button is the play-again transition |
| CityGame.LookUpSpec | frontend/src/app/cities-atlas/page.tsx:240-241 | A typed name becomes a move exactly when the search succeeded, a hit with a non-empty id matched and the city could be fetched. The move is that city's |
| CityGame.FirstMayBeDigit | frontend/src/app/cities-atlas/page.tsx:258 | A city named with a leading digit has that digit as the first character the letter check compares |
| CityGame.StartCitiesSpec | frontend/src/app/cities-atlas/page.tsx:160-184 | A start succeeds exactly when the data is (or becomes) loaded and the first letter arrives, and then it resets as the countries page does. Otherwise only the mode and the loaded flag change |
| CityGame.Page.constructor | frontend/src/app/cities-atlas/page.tsx:76-96 | The page starts in the initial state with no data loaded |
| CityGame.Page.StartGame | frontend/src/app/cities-atlas/page.tsx:113-184 | `startGame`, with the data load, is `StartCities` |
| CityGame.Page.Reset | frontend/src/app/cities-atlas/page.tsx:168-181 | The setters of `startGame` perform the start transition |
| CityGame.Page.HandlePlayerInput | frontend/src/app/cities-atlas/page.tsx:215-220 | `handlePlayerInput` is the input transition |
| CityGame.Page.Tick | frontend/src/app/cities-atlas/page.tsx:192-213 | One firing of the interval is the tick transition |
| CityGame.Page.SubmitPlayer | frontend/src/app/cities-atlas/page.tsx:235-288 | `submitPlayer` is the submit transition for the city the two requests yield |
| CityGame.Page.Play | frontend/src/app/cities-atlas/page.tsx:243-288 | After the lookups, the checks and the acceptance are the submit transition |
| CityGame.Page.RunReply | frontend/src/app/cities-atlas/page.tsx:291-320 | A scheduled reply is the respond transition over the fetched cities of the reply's letter |
| CityGame.Page.Answer | frontend/src/app/cities-atlas/page.tsx:280-320 | The body of a reply is the answer transition, and a thrown request error ends it early |
| CityGame.Page.HandleSkip | frontend/src/app/cities-atlas/page.tsx:323-336 | `handleSkip` is the skip transition with the fetched new letter |
| CityGame.Page.HandleGiveUp | frontend/src/app/cities-atlas/page.tsx:338-344 | `handleGiveUp` is the give-up transition, even before the data is loaded |
| CityGame.Page.PlayAgain | frontend/src/app/cities-atlas/page.tsx:493 | The "Play Again" button is the play-again transition |
| Migrate.QuoteFreeRun | frontend/scripts/migrate-cities.js:45 | The run of `[^']+` stops at the first quote or at the end of the text |
| Migrate.LiteralAtSpec | frontend/scripts/migrate-cities.js:45 | A match at p is exactly `= '`, then a non-empty literal without quotes, then a closing quote |
| Migrate.FirstMatchSpec | frontend/scripts/migrate-cities.js:45 | The regular-expression search finds the leftmost match, and fails only when there is none |
| Migrate.ExtractBase64Spec | frontend/scripts/migrate-cities.js:45-51 | The script fails with "Could not find base64 data in the file" exactly when the text holds no match. Otherwise it takes the leftmost literal |
| Migrate.ExtractRoundTrip | frontend/scripts/build-cities-dataset.mjs:240 | Writing a literal after a header without quotes, as the generated file does, and extracting it gives the literal back |
| Migrate.NoQuoteNoLiteral | frontend/scripts/migrate-cities.js:45-48 | A text without a single quote makes the migration stop with its error |
| Migrate.ValidMembers | frontend/scripts/migrate-cities.js:67-81 | The kept records are exactly those with every required field truthy |
| Migrate.ValidConcat | frontend/scripts/migrate-cities.js:67-81 | The filter keeps the records' relative order |
| Migrate.MissingCountSpec | frontend/scripts/migrate-cities.js:75-78 | The missing-coordinates count is at most the number of records, and is zero exactly when all have both coordinates |
| Migrate.FilterValid | frontend/scripts/migrate-cities.js:64-81 | The filter callback with its counters: every record is kept or skipped, and the coordinates count covers the kept records |
| Migrate.ToDocumentRoundTrip | frontend/scripts/migrate-cities.js:96-107 | The transform loses nothing from a record with both coordinates and no empty state id, and a missing coordinate becomes 0 |
| Migrate.FromDocumentRoundTrip | frontend/scripts/migrate-cities.js:96-107 | A document with non-empty required fields and state id is the transform of the record it reads back as |
| Migrate.Documents | frontend/scripts/migrate-cities.js:96 | A batch of records gives one document per record |
| Migrate.StoredBatch | frontend/scripts/migrate-cities.js:109-111 | A batch that `insertMany` accepts is counted in full: all its documents, in order |
| Migrate.StoredAll | frontend/scripts/migrate-cities.js:92-127 | When every batch is accepted, the document of every valid record is counted as inserted, in order |
| Migrate.StoredFromValid | frontend/scripts/migrate-cities.js:92-127 | Every document counted as inserted is the document of a valid record, and there are at most as many |
| Migrate.StoredSplit | frontend/scripts/migrate-cities.js:92-127 | The documents counted for the first records are those counted before a batch followed by those counted in it |
| Migrate.CountedConcat | frontend/scripts/migrate-cities.js:92-127 | Counting over a range of records is counting over its two halves in turn |
| Migrate.CountedChunks | frontend/scripts/migrate-cities.js:92-127 | Counting batch by batch gives the same documents, in the same order, as counting record by record |
| Migrate.Leftover | frontend/scripts/migrate-cities.js:109-115 | A refused ordered `insertMany` leaves in the collection the documents of the leading records of its batch, as many as it wrote before its error and never more than the batch holds. An accepted batch leaves nothing uncounted |
| Migrate.LeftoverEmpty | frontend/scripts/migrate-cities.js:109-115 | When no refused batch wrote a document before its error, nothing uncounted is left |
| Migrate.LeftoverFromValid | frontend/scripts/migrate-cities.js:96-115 | Every uncounted document is the document of a valid record at or after the start, and there are no more of them than records |
| Migrate.RefusedBatchKeepsPrefix | frontend/scripts/migrate-cities.js:109-123 | A refused batch whose first document got in leaves that document in the collection, counted or not, as with two records of one batch sharing an `id` |
| Migrate.CollectionStep | frontend/scripts/migrate-cities.js:92-126 | Writing one batch moves that batch's share of the collection from what is still to come to what is written |
| Migrate.CollectionSize | frontend/scripts/migrate-cities.js:92-126 | The collection holds exactly as many documents as are counted and left over together, so `insertedCount` can fall short of it |
| Migrate.CollectionMembers | frontend/scripts/migrate-cities.js:92-126 | A document is in the collection exactly when it is counted or left over |
| Migrate.CollectionIsCounted | frontend/scripts/migrate-cities.js:92-126 | When no refused batch wrote a document before its error, the collection is exactly the counted documents, in order |
| Migrate.SlicedSnoc | frontend/scripts/migrate-cities.js:93 | Each new slice extends the batches taken so far |
| Migrate.InsertBatches | frontend/scripts/migrate-cities.js:89-127 | The records are taken in consecutive batches of 1000. The counted documents are those of the kept records, every valid record counts as inserted or as failed, and the collection is, batch by batch, the uncounted prefix of a refused `insertMany` followed by the counted documents |
| Migrate.BatchLoop | frontend/scripts/migrate-cities.js:92-127 | The batch loop stops past the last record, having counted every batch and written every batch's share of the collection |
| Migrate.NextBatch | frontend/scripts/migrate-cities.js:92-126 | One turn of the batch loop: the counters carried over the next batch of up to 1000 records, and that batch's share of the collection appended |
| Migrate.StoreBatch | frontend/scripts/migrate-cities.js:109-126 | One batch is stored by `insertMany`, or record by record when that fails, and each record counts as inserted or failed. What it writes is the prefix a refused `insertMany` got in, then the documents counted |
| Migrate.BatchesPartition | frontend/scripts/migrate-cities.js:92-93 | The batches are non-empty and hold at most 1000 records, all but the last exactly 1000. Together they give back the valid records in order |
| Migrate.BatchesPrefix | frontend/scripts/migrate-cities.js:92-93 | The first m batches give back the records before the m-th batch |
| Migrate.MigrateCities | frontend/scripts/migrate-cities.js:45-127 | A missing literal or a failed decode is an error. Otherwise `insertedCount` is the number of documents counted, inserted plus skipped (filtered out or refused) equals the decoded count, and the emptied collection ends up holding the counted documents together with what refused batches wrote before their error |

## Left out

- **Unicode beyond Latin-1.** `toLowerCase` is modelled for ASCII and the Latin-1 upper-case
  letters. `normalize('NFD')` is modelled for the precomposed Latin-1 lower-case letters and is
  the identity elsewhere. Other scripts, case mappings and decompositions are not modelled.
- **The `localeCompare` sorts.** The final sort of the countries and of the cities by display
  name depends on ICU collation, so the record lists are modelled in input order. The
  default `sort()` of ids and ambiguous keys is modelled.
- **Network, files, JSON and base64.** Fetching REST Countries and the cities lists, writing
  the artifacts, encoding them and the logging are not modelled. In the migration, reading the
  file, `Buffer.from(..., 'base64')` with `JSON.parse` (a parameter `decode`), the database
  connection, `deleteMany`, `createIndexes`, `countDocuments` and the sample query are not
  modelled. The outcome of `insertMany` and `create` is a parameter (`batchOk`, `recordOk`), and
  so is how many leading documents a refused ordered `insertMany` wrote before its error
  (`partial`). Whether a `create` retry fails on the unique `id` index because that document is
  already among them is part of `recordOk`, not derived.
- **Schema validation.** The document store's checks (for example a missing `countryCode`)
  appear only through those outcome parameters.
- **Randomness and time.** `Math.random()` is a `roll` parameter in [0, 1). `Date.now()` is a
  `now` parameter. `setTimeout` callbacks are queued in `pending` and run in any order, each
  atomically. The interleavings of `await` inside one handler are not modelled, and neither are
  the delays and the loading progress of `loadCitiesData`.
- **Presentation.** The React rendering, sounds, focus, `status`, `history`, `bigFeedback`,
  `lastPlayerMove`, `lastCpuMove` and the loading stages are not modelled. None of them feeds
  back into the rules.
- **Which controls the screen shows.** While no mode is chosen (at first and after "Play
  Again") the page renders only the mode dialog. The input, submit, skip and give-up handlers do
  not check the mode themselves, so the model lets them run from any state, including
  `Initial`, where the required letter is the empty string. This over-approximates what a click
  can reach. The `disabled` attributes of the controls are not modelled either. They repeat
  checks the handlers make, except that the skip button is disabled once no skip is left, so
  the branch of `handleSkip` that ends the game for want of skips is not reachable by a click.
- **Raw field shapes.** A missing string field of a raw record is the empty string. Non-string
  alternative spellings are removed. `parseInt` and `parseFloat` results are given as options.
- **Object keys of the prototype.** JavaScript objects used as tables also answer keys such as
  `constructor` through their prototype. That quirk is not modelled; tables are maps.
- **The cities service's `getRandomAvailableLetter`** and `getCitiesByFirstLetter` are only
  requests. Their outcome is a parameter of the page methods (`letter`, `bucket`).
- AliasTable.BuildCharacterization: stated only when every id is non-empty (`NonEmptyIds`),
  because the table's truthiness test cannot tell a stored empty id from no entry.
- CountryBuild.SoleClaimResolves: requires every cca3 code to be non-empty (`HasIds`), for the
  same reason.
- CountryBuild.LetterIndexOnce: requires unique cca3 codes. With duplicated codes the build
  lists an id once per record.
- CityBuild.LetterIndexOnce: requires unique city ids, for the same reason.
- CityBuild.ManualFillsGaps: describes the manual pass as it runs after the record loop. Which
  city a canonical name denotes depends on the input order, because `cityIdMap` keeps the last
  one.
- CitiesService.ResponseCache.FetchWithCache: cached data is tested for truthiness through a
  `truthy` parameter, since the payload type is generic.
- CityGame.Page.StartGame: the connection test and the first-letter request are given as
  outcomes, and the awaits between them are taken as one step.
