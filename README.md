# SparkKit core, modelled in Dafny

SparkKit is a Next.js site that lists CodePen front-end showcases in Chinese
and English. This project models the deterministic logic of that site:

- the records and their recency order;
- the in-memory filter pipeline, used when no database is reachable;
- the daily featured selection:
  - a cycle key taken from the Beijing calendar date with an 08:00 boundary;
  - a Java-style string hash with 32-bit wrap-around;
  - a Park–Miller generator;
  - three tier-balanced draws and a Fisher–Yates shuffle;
- locale resolution and bilingual field choice;
- the SEO title and description normaliser and the shared metadata record;
- the site-URL, base-path, pen-URL and footer-link helpers;
- the browser-side table fallback;
- the listing pages and their URL handling:
  - the filter form, which builds `URLSearchParams`;
  - the pagination links;
  - the client explorer and its fetch state;
  - the two server-rendered listing pages.

Modules follow the source files:

| module | source |
|---|---|
| `Types` | `lib/types.ts` |
| `ShowcaseData`, `CycleKey`, `DailyFeatured` | `lib/showcase-data.ts` |
| `I18n` | `lib/i18n.ts` |
| `Meta` | `lib/meta.ts` |
| `Site` | `lib/site.ts` |
| `Url` | `lib/url.ts` |
| `Supabase` | `lib/supabase.ts` |
| `SupabaseBrowser` | `lib/supabase-browser.ts` |
| `ShowcaseFiltersForm` | `components/ShowcaseFilters.tsx` |
| `PaginationControls` | `components/PaginationControls.tsx` |
| `ShowcaseExplorer` | `components/ShowcaseExplorer.tsx` |
| `ListingPage` | `app/showcases/page.tsx` and `app/search/page.tsx` (identical logic) |
| `SiteFooter` | `components/SiteFooter.tsx` |

The remaining modules model the JavaScript built-ins the core relies on:

- `Wrappers`: `null`/`undefined` as `Option`;
- `Strings`: `trim`, ASCII `toLowerCase`, `includes`, `startsWith`, `Number.parseInt`, `toString`, `padStart`;
- `Seqs`: `filter`, `slice` with negative indices, `Set` de-duplication;
- `Sorting`: the stable `Array.prototype.sort` with a comparator, and the default string sort;
- `CivilDate`: proleptic Gregorian dates, `Date.UTC` and `setUTCDate(d - 1)`;
- `SearchParams`: `URLSearchParams` as an ordered list of entries, serialised as application/x-www-form-urlencoded per section 5.2 of the WHATWG URL Standard.

Foreign inputs are parameters:

- `Date.parse` is `parse: string -> Option<int>`, where `None` is `NaN`;
- an instant is integer milliseconds since the epoch;
- `SITE_URL` and environment variables are strings;
- a database answer per table is a `respond` function;
- the current path is an `Option<string>`.

Where a source function mutates state step by step, the model is a method with loop invariants. Each such method is proved equal to a specification function, and the properties are lemmas about that function:

- `hashString`;
- the seeded generator (a class);
- the draws and the shuffle (over an array);
- `ensureRange` and `composeDescription`;
- the table loop;
- the filter form (a class);
- the explorer state (a class).

## Model

| member | source | states |
|---|---|---|
| ShowcaseData.RecencyTimestamp | lib/showcase-data.ts:14-18 | the key is numeric exactly when both timestamps are (an absent or empty one counts as 0, an unparsable one is `NaN`), and then it is the larger of the two |
| ShowcaseData.AbsentUpdateKeepsCreation | lib/showcase-data.ts:14-18 | with no update time the key is the creation time, or 0 when that is before the epoch; an unparsable creation time gives `NaN` |
| ShowcaseData.SortShowcasesByRecency | lib/showcase-data.ts:20-23 | the result is a permutation of the input (a sorted copy) |
| ShowcaseData.RecencyPreorder | lib/showcase-data.ts:21-22 | with numeric keys the comparator is a total preorder in either direction |
| ShowcaseData.SortedByRecency | lib/showcase-data.ts:20-23 | with numeric keys, `latest` gives non-increasing and `oldest` non-decreasing recency |
| ShowcaseData.SortByRecencyStable | lib/showcase-data.ts:20-23 | records of equal recency keep their input order (stable sort) |
| ShowcaseData.SameClass | lib/showcase-data.ts:21-22 | comparator-equivalence is equality of recency keys |
| ShowcaseData.LowerAll | lib/showcase-data.ts:32 | every tag lowered, in place |
| ShowcaseData.Matching | lib/showcase-data.ts:30-65 | the sorted, filtered records are a sub-multiset of the input |
| ShowcaseData.ApplyFallbackFilters | lib/showcase-data.ts:29-67 | the result is drawn from the data and never longer than a non-negative limit |
| ShowcaseData.FallbackMatches | lib/showcase-data.ts:34-65 | every returned record satisfies every active filter |
| ShowcaseData.FallbackIsWindow | lib/showcase-data.ts:66 | the result is one contiguous run of the sorted, filtered records starting where the offset points |
| ShowcaseData.FallbackPositions | lib/showcase-data.ts:66 | for a non-negative offset and limit the result is exactly the existing positions `[offset, offset + (limit ?? data.length))` of the sorted, filtered records |
| ShowcaseData.FallbackPagesAdjoin | lib/showcase-data.ts:66 | two consecutive pages of size m concatenate to the window of size 2m |
| ShowcaseData.SameQuery | lib/showcase-data.ts:31-32 | the filter criteria depend only on query, tags, stack and difficulty |
| ShowcaseData.FallbackOrdered | lib/showcase-data.ts:29-30 | with numeric keys the result follows `filters.order` (default `latest`) |
| ShowcaseData.TableCandidates | lib/showcase-data.ts:6-12 | the candidate tables are distinct and none is blank |
| ShowcaseData.TableCandidatesOrder | lib/showcase-data.ts:6-12 | both built-in tables are candidates; a configured non-blank table comes first; without one the list is exactly the two built-ins |
| ShowcaseData.BuiltInKept | lib/showcase-data.ts:8-9 | a name whose first character is not white space survives the filter and the de-duplication |
| ShowcaseData.BuiltInCandidates | lib/showcase-data.ts:6-12 | without a configured table the candidates are `frontend_showcase`, `codepen_showcases` |
| ShowcaseData.BuiltInPresent | lib/showcase-data.ts:8-10 | the presence filter keeps both built-in names in order |
| ShowcaseData.NormalizeDifficulty | lib/showcase-data.ts:69-71 | an absent value gives `''`; otherwise the result is empty exactly when the value is blank, and is no longer than it |
| ShowcaseData.NormalizedAs | lib/showcase-data.ts:69-71 | a value normalises to a non-empty lower-case tier exactly when it is present and its trimmed text equals the tier up to ASCII case |
| DailyFeatured.ToInt32 | lib/showcase-data.ts:77 | the 32-bit conversion of `hash` yields a signed 32-bit value congruent to its input modulo 2^32 |
| DailyFeatured.ToInt32Periodic | lib/showcase-data.ts:77 | the conversion ignores multiples of 2^32 |
| DailyFeatured.HashStep | lib/showcase-data.ts:76-77 | `(hash << 5) - hash + code` then the 32-bit conversion equals the wrapped `31 * h + code` |
| DailyFeatured.HashOf | lib/showcase-data.ts:73-80 | the hash is always between 1 and 2^31 + 1 |
| DailyFeatured.HashString | lib/showcase-data.ts:73-80 | the loop computes the wrapped 31-polynomial over the UTF-16 code units, then `abs + 1` |
| DailyFeatured.JsRemainder | lib/showcase-data.ts:83 | JavaScript `%` truncates: the remainder lies strictly between -m and m and has the dividend's sign |
| DailyFeatured.InitialState | lib/showcase-data.ts:82-86 | the initial state lies in [0, 2^31 - 1) |
| DailyFeatured.InitialStateLive | lib/showcase-data.ts:82-86 | the state is in [1, 2147483646] unless the seed is a negative number congruent to 1 mod 2^31 - 1 (never a hash) |
| DailyFeatured.Step | lib/showcase-data.ts:88 | the next state lies in [0, 2^31 - 1), and multiplying by 16807 mod 2^31 - 1 keeps a live state in [1, 2147483646] |
| DailyFeatured.Scale | lib/showcase-data.ts:87-90 | on a live state and n >= 1, `floor(random() * n)` lies in [0, n) |
| DailyFeatured.NegativeSeedStuck | lib/showcase-data.ts:82-89 | the seed -2147483646 would give state 0, which stays 0 and yields index -1 |
| DailyFeatured.SeededRandom.constructor | lib/showcase-data.ts:82-86 | the captured value starts as the initial state |
| DailyFeatured.SeededRandom.NextIndex | lib/showcase-data.ts:87-90 | one step of the generator and the scaled index; a live state stays live and the index is in range |
| DailyFeatured.TierPool | lib/showcase-data.ts:136-137 | every pooled record has the pool's normalised difficulty |
| DailyFeatured.TierPoolMembers | lib/showcase-data.ts:136-137 | a record is in a tier's pool exactly when it is a record whose trimmed difficulty equals the tier up to ASCII case |
| DailyFeatured.Unused | lib/showcase-data.ts:142 | no remaining candidate has a used id |
| DailyFeatured.Take | lib/showcase-data.ts:143-152 | the draw loop keeps the generator state live |
| DailyFeatured.Pick | lib/showcase-data.ts:141-153 | `pickFromPool` keeps the generator state live |
| DailyFeatured.Backfill | lib/showcase-data.ts:158-169 | the backfill keeps the generator state live |
| DailyFeatured.Shuffle | lib/showcase-data.ts:171-175 | the Fisher–Yates loop keeps the length and a live state |
| DailyFeatured.ShufflePermutes | lib/showcase-data.ts:171-175 | the shuffle is a permutation |
| DailyFeatured.Selections | lib/showcase-data.ts:132-169 | the draws leave the generator live |
| DailyFeatured.DailyFeatured | lib/showcase-data.ts:127-178 | at most six records are returned |
| DailyFeatured.Shuffled | lib/showcase-data.ts:171-177 | the shuffled slice has at most six records |
| DailyFeatured.PickFromPool | lib/showcase-data.ts:141-153 | the loop over a spliced copy computes `Pick` and advances the generator accordingly |
| DailyFeatured.FillFromRecords | lib/showcase-data.ts:158-169 | the backfill loop computes `Backfill` |
| DailyFeatured.ShuffleCopy | lib/showcase-data.ts:171-175 | the in-place swaps on a fresh array compute `Shuffle` and its final state |
| DailyFeatured.SelectDailyFeatured | lib/showcase-data.ts:127-178 | the method returns `DailyFeatured` of the records and the instant's cycle key |
| DailyFeatured.SelectForKey | lib/showcase-data.ts:132-177 | for more than six records the imperative selection equals `DailyFeatured` |
| DailyFeatured.DrawSelections | lib/showcase-data.ts:155-169 | the three draw phases in order: advanced, intermediate, backfill |
| DailyFeatured.TakeExtends | lib/showcase-data.ts:143-152 | draws only append to the selections and the used set |
| DailyFeatured.TakeCount | lib/showcase-data.ts:143 | a draw takes min(count, candidates, room left) records |
| DailyFeatured.TakeWithin | lib/showcase-data.ts:143-152 | drawn records come from the candidates, and every selected id is recorded as used |
| DailyFeatured.TakeFrom | lib/showcase-data.ts:143-152 | records drawn from a pool satisfy the pool's predicate |
| DailyFeatured.TakeUsed | lib/showcase-data.ts:149-150 | the used ids are exactly the ids of the selections |
| DailyFeatured.PickWithin | lib/showcase-data.ts:141-153 | `pickFromPool` draws only from the pool |
| DailyFeatured.BackfillWithin | lib/showcase-data.ts:158-169 | the backfill draws only from the records |
| DailyFeatured.SelectionsWithin | lib/showcase-data.ts:132-169 | the selections are a sub-multiset of the records, at most six |
| DailyFeatured.IdsWithin | lib/showcase-data.ts:134-149 | distinct ids all in the used set are no more than its size |
| DailyFeatured.UnusedAtLeast | lib/showcase-data.ts:159 | filtering out used ids removes at most as many records as there are used ids |
| DailyFeatured.PickUsed | lib/showcase-data.ts:141-153 | used ids never outnumber the selections |
| DailyFeatured.SelectionsFull | lib/showcase-data.ts:158-169 | with distinct ids and more than six records, exactly six are selected |
| DailyFeatured.FewRecordsKept | lib/showcase-data.ts:128-130 | six or fewer records are returned unchanged |
| DailyFeatured.FeaturedPermutesSelections | lib/showcase-data.ts:171-177 | the result is a permutation of the selections |
| DailyFeatured.ShuffledWhole | lib/showcase-data.ts:171-177 | shuffling six or fewer selections loses none |
| DailyFeatured.ShortShuffleWhole | lib/showcase-data.ts:177 | the final `slice(0, 6)` keeps the whole shuffle |
| DailyFeatured.FeaturedFromRecords | lib/showcase-data.ts:127-178 | every featured record comes from the input |
| DailyFeatured.FeaturedSixDistinct | lib/showcase-data.ts:127-178 | with distinct ids and more than six records, exactly six distinct records are returned |
| DailyFeatured.SameDaySameFeatured | lib/showcase-data.ts:127-178 | the selection depends only on the records and the UTC day of the instant |
| DailyFeatured.SameIdSameRecord | lib/showcase-data.ts:134 | with distinct ids, equal ids mean equal records |
| DailyFeatured.FullRound | lib/showcase-data.ts:143-152 | with room and enough candidates a draw takes exactly `count` records from the pool |
| DailyFeatured.IntermediatesUnmarked | lib/showcase-data.ts:141-156 | after the advanced round no intermediate record is marked used |
| DailyFeatured.InRecords | lib/showcase-data.ts:127-178 | elements of a sub-multiset are members |
| DailyFeatured.AdvancedRound | lib/showcase-data.ts:155 | with three advanced records the first round selects three advanced records |
| DailyFeatured.PickFresh | lib/showcase-data.ts:141-142 | with nothing used yet, `pickFromPool` draws from the whole pool |
| DailyFeatured.FirstRoundWithin | lib/showcase-data.ts:155 | the first round's records come from the records |
| DailyFeatured.IntermediateRound | lib/showcase-data.ts:156 | with three intermediate records the second round adds three intermediate records |
| DailyFeatured.SelectionsTiers | lib/showcase-data.ts:155-156 | the selections are three advanced then three intermediate records |
| DailyFeatured.SplitCounts | lib/showcase-data.ts:155-156 | two disjoint blocks of three are counted exactly |
| DailyFeatured.FeaturedTierBalance | lib/showcase-data.ts:127-178 | with three or more of each tier, exactly three advanced and three intermediate records are featured |
| DailyFeatured.BalancedFew | lib/showcase-data.ts:128-130 | among six or fewer records holding three of each of two disjoint tiers, each tier has exactly three |
| CycleKey.IsoDate | lib/showcase-data.ts:111 | the ISO date text has at least ten characters |
| CycleKey.IsoPrefix | lib/showcase-data.ts:111 | `toISOString().slice(0, 10)` has exactly ten characters |
| CycleKey.ParsePartsOf | lib/showcase-data.ts:105-107 | the formatter's year, month and day parts parse back to the date's fields |
| CycleKey.ShanghaiPartsParse | lib/showcase-data.ts:94-108 | the Shanghai parts of an instant parse as its +8h calendar date and hour |
| CycleKey.ShanghaiDay | lib/showcase-data.ts:114 | a Shanghai hour before 08 is the UTC day before the local day, otherwise the same day |
| CycleKey.KeyDateIsUtcDate | lib/showcase-data.ts:114-120 | the date the key names is the UTC date of the instant |
| CycleKey.ShanghaiKeyIsUtcDate | lib/showcase-data.ts:93-125 | from 1970 on, the key computed from the Shanghai parts is the UTC calendar date of the instant |
| CycleKey.BeijingCycleKey | lib/showcase-data.ts:93-125 | the key has at least ten characters and, from 1970 on, is the formatted UTC calendar date of the instant |
| CycleKey.CycleKeyOf | lib/showcase-data.ts:105-124 | whichever branch is taken, the key has at least ten characters |
| CycleKey.FormatKey | lib/showcase-data.ts:122-124 | the padded year, month and day with their dashes make at least ten characters |
| CycleKey.SameUtcDaySameKey | lib/showcase-data.ts:93-125 | all instants of one UTC day share a key |
| CycleKey.EarlyHoursKeyPreviousDay | lib/showcase-data.ts:114-120 | before 08:00 Beijing time the key names the previous Beijing day, across month and year ends |
| CycleKey.FormatKeyShape | lib/showcase-data.ts:122-124 | for years 0–9999 the key is zero-padded `YYYY-MM-DD` and each field reads back |
| CycleKey.KeyPieces | lib/showcase-data.ts:122-124 | the dashes sit at positions 4 and 7 |
| CycleKey.NatToStringLength | lib/showcase-data.ts:122 | a number below 10^k has at most k digits |
| CivilDate.DaysInMonth | lib/showcase-data.ts:115-116 | every month has 28 to 31 days |
| CivilDate.StepsInverse | lib/showcase-data.ts:115-119 | the previous and next day are inverse and roll over months and years |
| CivilDate.WalkValid | lib/showcase-data.ts:115-119 | walking from a valid date stays valid |
| CivilDate.WalkBack | lib/showcase-data.ts:116 | one step back is the previous day |
| CivilDate.CivilSteps | lib/showcase-data.ts:116-119 | the civil date of day z - 1 is the previous day of that of z |
| CivilDate.WalkInMonth | lib/showcase-data.ts:115 | within a month, walking k days adds k to the day |
| CivilDate.CivilFromEpoch | lib/showcase-data.ts:111 | days from the epoch on fall in 1970 or later |
| CivilDate.UtcDate | lib/showcase-data.ts:115 | `Date.UTC` of year, month index and day is a valid date |
| CivilDate.UtcDateOfValid | lib/showcase-data.ts:115 | for a valid date outside years 0–99, `Date.UTC` gives it back |
| I18n.ResolveInitialLocale | lib/i18n.ts:5-8 | a missing or empty header gives `en` |
| I18n.ResolveZhIffOccurs | lib/i18n.ts:10-15 | the result is `zh` exactly when the lowered header contains `zh` anywhere |
| I18n.NormalizeNavigatorLanguage | lib/i18n.ts:18-33 | `zh` or `en` exactly by lowered prefix; `null` for a missing, empty or other value |
| I18n.NavigatorZhResolvesZh | lib/i18n.ts:10-26 | a navigator language read as `zh` also resolves as `zh` |
| I18n.GetLocalizedText | lib/i18n.ts:35-58 | the preferred column when it is not blank, else the other when not blank, else `null`; the raw value is returned; the default is `en` |
| I18n.LocalizedTextSingleColumn | lib/i18n.ts:53-57 | when at most one column is usable, the preference does not matter |
| I18n.GetLocalizedList | lib/i18n.ts:60-80 | the preferred non-empty list, else the other, else `[]` |
| I18n.LocalizedListSingleColumn | lib/i18n.ts:75-79 | when at most one list is usable, the preference does not matter |
| Meta.FitLength | lib/meta.ts:31-46 | the clip-and-pad loop computes `Fit` |
| Meta.EnsureRange | lib/meta.ts:24-49 | `ensureRange` computes `Ranged`: trim, default text when blank, then fit |
| Meta.Pad | lib/meta.ts:38-46 | the padding loop keeps a text no longer than `max` as a prefix of its result |
| Meta.Fit | lib/meta.ts:31-46 | a text longer than `max` yields exactly its first `max` code points; a shorter one is kept as a prefix |
| Meta.Ranged | lib/meta.ts:24-49 | the result never exceeds `max`, and a non-blank trimmed value that fits is kept as its prefix |
| Meta.PadAtMost | lib/meta.ts:38-46 | padding never exceeds `max` |
| Meta.PadAtLeast | lib/meta.ts:38-46 | with a non-empty filler and min ≤ max, padding reaches `min` |
| Meta.FitAtMost | lib/meta.ts:33-46 | the result never exceeds `max` code points |
| Meta.FitAtLeast | lib/meta.ts:33-46 | with min ≤ max the result has at least `min` code points |
| Meta.FitKeepsInRange | lib/meta.ts:33-48 | a text already within [min, max] is returned unchanged |
| Meta.Copies | lib/meta.ts:39 | k copies of the filler have k times its length |
| Meta.PadPrefix | lib/meta.ts:38-46 | padding keeps the text and follows it with `k` fillers, only the last of them possibly cut and added while still short of `min` |
| Meta.FitPadsShort | lib/meta.ts:38-46 | a short text yields itself followed by fillers, a prefix of the text and `min` fillers |
| Meta.RangedBlank | lib/meta.ts:27-29 | blank input is replaced by the default text before fitting |
| Meta.RangedBounds | lib/meta.ts:24-49 | with min ≤ max the result has between min and max code points |
| Meta.ComposeTitle | lib/meta.ts:51-54 | the title is the white-space-collapsed, fitted text followed by the suffix |
| Meta.ComposeDescription | lib/meta.ts:56-82 | the loop computes `Described`, which is always 150 to 160 code points |
| Meta.DescribedLength | lib/meta.ts:56-82 | the description has 150 to 160 code points |
| Meta.ComposeDetailTitle | lib/meta.ts:220-224 | the detail title is the fitted raw title plus its tail, then the suffix |
| Meta.CreateSharedMeta | lib/meta.ts:84-134 | the en-US alternate is canonical + `?hl=en`; zh-CN and x-default are canonical; OpenGraph and Twitter repeat title and description; the image defaults to the OG cover |
| Meta.EnglishAlternateIsFooterLink | lib/meta.ts:106 | the en-US alternate is the footer's English link of the canonical URL |
| Meta.DetailTitleChoice | lib/meta.ts:227-230 | the title source is the zh title, else the en title, else `user/slug` |
| Meta.CreateDetailMetadata | lib/meta.ts:226-263 | title, canonical detail URL, description length, article type, Twitter handle, image and OpenGraph extras |
| Site.DropLeadingSlashes | lib/site.ts:32 | removes exactly the leading run of slashes |
| Site.DropTrailingSlashes | lib/site.ts:33 | removes exactly the trailing run of slashes |
| Site.NormalizeBasePath | lib/site.ts:22-40 | a missing or blank value gives `''`; otherwise `''` or `/` + a core that neither starts nor ends with `/` |
| Site.Unslashed | lib/site.ts:32-33 | with both slash runs removed, what is left neither starts nor ends with `/` |
| Site.SlashedCore | lib/site.ts:32-39 | an empty trimmed value gives `''`; otherwise `''` or `/` + a core that neither starts nor ends with `/` |
| Site.SlashCore | lib/site.ts:32-33 | stripping both runs leaves the slice between them |
| Site.BasePathIsCore | lib/site.ts:27-39 | the base path is `/` + the trimmed value without its outer slash runs, or `''` |
| Site.SlashesOnlyBasePath | lib/site.ts:35-37 | a value of slashes only normalises to `''` |
| Site.GetSiteUrl | lib/site.ts:48-59 | an empty path gives `SITE_URL`; absolute URLs pass through; other paths are appended with one leading `/` |
| Site.GetOgImageUrl | lib/site.ts:65-67 | the OG image is `SITE_URL/og-cover.png` |
| Site.GetDefaultLocale | lib/site.ts:69-83 | `zh` exactly when the lowered setting starts with `zh`, else `en` |
| Site.DefaultLocaleIsNavigatorReading | lib/site.ts:69-83 | the default locale reads the setting as the navigator language is read, `en` when that gives none |
| Url.BuildPenUrl | lib/url.ts:3-5 | the URL starts with the CodePen origin, ends with the slug and has length 19 + length of user + 5 + length of slug |
| Url.ParseBuildPenUrl | lib/url.ts:3-5 | for a user without `/`, user and slug can be read back from the URL |
| SiteFooter.BuildLocalizedHref | components/SiteFooter.tsx:9-15 | an empty query leaves the path; otherwise path + (`&` if it has `?`, else `?`) + query, always starting with the path |
| SiteFooter.LocalizedHrefKeepsPath | components/SiteFooter.tsx:13-14 | the link has a `?` and the part before the first `?` is unchanged |
| SiteFooter.LocaleQuery | components/SiteFooter.tsx:20 | `hl=zh-cn` exactly for zh, `hl=en` otherwise |
| Supabase.LegacyFallbackFilters | lib/supabase.ts:35-72 | the result is drawn from the data, no longer than a non-negative limit |
| Supabase.LegacyIsWindow | lib/supabase.ts:38-71 | no sorting: the result is the order-preserving window `[offset, offset + limit)` of the filtered input |
| Supabase.LegacyMatches | lib/supabase.ts:39-70 | every returned record satisfies every active filter |
| Supabase.SortedThenLegacy | lib/supabase.ts:35-72 | the newer filter is the legacy one applied after the recency sort |
| Supabase.BlankQueryIgnored | lib/supabase.ts:36-41 | a blank query imposes no constraint |
| Supabase.MissingFieldsFail | lib/supabase.ts:56-67 | a record without tags, stack or difficulty fails a non-empty filter on it |
| Supabase.CreatedKey | lib/supabase.ts:80 | a non-zero key is the parsed creation time; a present, non-empty time that parses gives its value; anything else reads as 0 |
| Supabase.MockByCreation | lib/supabase.ts:79-81 | the pre-sort is a permutation of the built-in records |
| Supabase.MockByCreationOrdered | lib/supabase.ts:79-81 | the pre-sort is newest first by creation time, `NaN` counted as 0 |
| Supabase.FetchShowcasesOffline | lib/supabase.ts:77-83 | the offline listing is drawn from the built-in records |
| Supabase.OfflineNewestFirst | lib/supabase.ts:77-83 | the offline listing is newest first by creation time, whatever the requested order |
| Supabase.DistinctSorted | lib/supabase.ts:154-158 | `Array.from(new Set(..)).sort()` is duplicate-free, sorted and has the same members |
| Supabase.AllTags | lib/supabase.ts:154 | the flattened tags are exactly the tags of some record |
| Supabase.AllTagsStep | lib/supabase.ts:154 | one record's tags prepended extend the membership |
| Supabase.PresentValues | lib/supabase.ts:155-157 | `filter(Boolean)` keeps exactly the present, non-empty values |
| Supabase.MockDistinctFilters | lib/supabase.ts:153-159 | the three lists are duplicate-free and sorted; stacks and difficulties drop null and empty values |
| SupabaseBrowser.HasClient | lib/supabase-browser.ts:14-24 | a client exists exactly when both the URL and the anonymous key are set and not empty |
| SupabaseBrowser.IsMissingRelationError | lib/supabase-browser.ts:30-37 | no error is not missing; codes `42P01`, `PGRST205`, `PGRST301` always are |
| SupabaseBrowser.MissingRelationText | lib/supabase-browser.ts:39-40 | for other codes: missing exactly when the lowered message + details contain one of the two phrases |
| SupabaseBrowser.LowerOccursShift | lib/supabase-browser.ts:39 | an occurrence in a part is an occurrence in the joined, lowered text |
| SupabaseBrowser.MentionedMissing | lib/supabase-browser.ts:39-40 | a phrase in the message or the details makes the error a missing relation |
| SupabaseBrowser.FirstAnswer | lib/supabase-browser.ts:50-94 | the first table whose answer does not move the loop on; all before it move on |
| SupabaseBrowser.FirstAnswerAt | lib/supabase-browser.ts:50-94 | that table is unique |
| SupabaseBrowser.BrowserFallback | lib/supabase-browser.ts:47 | the fallback draws from the built-in records |
| SupabaseBrowser.ClientResult | lib/supabase-browser.ts:50-96 | the fallback after another error or when every table moves on; otherwise the first answering table's rows, re-sorted |
| SupabaseBrowser.FetchShowcasesClient | lib/supabase-browser.ts:43-97 | without a client, the fallback and no query; otherwise `ClientResult`, after querying exactly the tables up to the first answer |
| SupabaseBrowser.ClientRowsNewestFirst | lib/supabase-browser.ts:91-93 | rows from a table come back newest first regardless of `filters.order` |
| SupabaseBrowser.ClientFallbackMatches | lib/supabase-browser.ts:83-96 | whenever the fallback is used its records match every active filter |
| SearchParams.GetAll | components/ShowcaseFilters.tsx:25 | `getAll` returns the values stored under a key |
| SearchParams.GetAllMembers | components/ShowcaseFilters.tsx:25 | its values are exactly those paired with the key |
| SearchParams.Get | components/ShowcaseFilters.tsx:27-29 | `get` is `null` exactly when `getAll` is empty, else its first value |
| SearchParams.GetAgrees | components/ShowcaseExplorer.tsx:38-40 | `get` depends only on `getAll` for the key |
| SearchParams.GetAllConcat | components/ShowcaseFilters.tsx:57-69 | reading a concatenation reads the parts in turn |
| SearchParams.SetValue | components/PaginationControls.tsx:20-23 | after `set`, the key holds exactly the value and every other key reads as before |
| SearchParams.GetAfterSet | components/PaginationControls.tsx:20-23 | `get` after `set` reads the value set |
| SearchParams.Append | components/ShowcaseFilters.tsx:69 | `append` adds one value at the end of the key's values, others unchanged |
| SearchParams.Serialize | components/ShowcaseFilters.tsx:71 | the string is empty exactly when there are no entries, and never contains `?` |
| SearchParams.SplitSerialize | components/ShowcaseFilters.tsx:71 | the string splits at `&` into the encoded entries, one per entry |
| SearchParams.EncodePair | components/ShowcaseFilters.tsx:71 | an entry is `key=value` with the first `=` ending the key |
| SearchParams.EncodePlain | components/ShowcaseFilters.tsx:71 | unreserved text is written as it is |
| ShowcaseFiltersForm.NormalizePage | components/ShowcaseFilters.tsx:208 | `NaN` or below 1 gives 1, otherwise the number |
| ShowcaseFiltersForm.UsePagination | components/ShowcaseFilters.tsx:205-209 | the page is always at least 1 |
| ShowcaseFiltersForm.MissingPageIsFirst | components/ShowcaseFilters.tsx:207 | without a `page` parameter the page is 1 |
| ShowcaseFiltersForm.PageReadsBack | components/ShowcaseFilters.tsx:207-208 | a page written as a number ≥ 1 reads back as itself |
| ShowcaseFiltersForm.Removed | components/ShowcaseFilters.tsx:46-47 | `delete` removes exactly that tag |
| ShowcaseFiltersForm.Toggled | components/ShowcaseFilters.tsx:43-53 | membership of exactly that tag flips; the others stay; no duplicates |
| ShowcaseFiltersForm.ToggleTwice | components/ShowcaseFilters.tsx:43-53 | toggling twice restores the members, and the order when the tag was absent |
| ShowcaseFiltersForm.RemovedLast | components/ShowcaseFilters.tsx:46-49 | deleting a just-added tag restores the set |
| ShowcaseFiltersForm.TagEntries | components/ShowcaseFilters.tsx:67-69 | one `tags` entry per tag, in order |
| ShowcaseFiltersForm.TagEntriesRead | components/ShowcaseFilters.tsx:67-69 | the entries read back as the tags under `tags` and nothing else |
| ShowcaseFiltersForm.EntryRead | components/ShowcaseFilters.tsx:58-66 | a conditional `set` on fresh parameters reads back as the value when non-empty |
| ShowcaseFiltersForm.ReadEntries | components/ShowcaseFilters.tsx:57-69 | the built parameters read back key by key |
| ShowcaseFiltersForm.SubmitParamsRead | components/ShowcaseFilters.tsx:58-69 | `q` holds the trimmed query when not blank, `stack` and `difficulty` when non-empty, `tags` the non-empty tags, nothing else |
| ShowcaseFiltersForm.TagStep | components/ShowcaseFilters.tsx:67-69 | one `forEach` step appends a non-empty tag and skips an empty one |
| ShowcaseFiltersForm.AppendTags | components/ShowcaseFilters.tsx:67-69 | the loop appends one entry per non-empty tag |
| ShowcaseFiltersForm.SetNewKey | components/ShowcaseFilters.tsx:59-65 | `set` of an absent key appends one entry |
| ShowcaseFiltersForm.SubmitParams | components/ShowcaseFilters.tsx:57-69 | every entry has a non-empty value under one of `q`, `stack`, `difficulty`, `tags` |
| ShowcaseFiltersForm.SubmitTarget | components/ShowcaseFilters.tsx:71-72 | with a `?`-free path, the target has a query exactly when there are parameters |
| ShowcaseFiltersForm.SubmitTargetShape | components/ShowcaseFilters.tsx:71-72 | no parameters give the bare path (`/showcases` when null); otherwise the path, `?` and the query string |
| ShowcaseFiltersForm.FilterForm.constructor | components/ShowcaseFilters.tsx:25-30 | the form starts from the URL's `q`, `stack`, `difficulty` and the set of its tags |
| ShowcaseFiltersForm.FilterForm.ToggleTag | components/ShowcaseFilters.tsx:43-53 | the selected tags become `Toggled`; the other fields stay |
| ShowcaseFiltersForm.FilterForm.Submit | components/ShowcaseFilters.tsx:55-73 | the step-by-step build navigates to the target of `SubmitParams` |
| ShowcaseFiltersForm.FilterForm.Reset | components/ShowcaseFilters.tsx:75-81 | all fields emptied, navigation to the bare path |
| PaginationControls.PrevParams | components/PaginationControls.tsx:20-22 | the previous link holds one `page` value, max(1, current - 1), and every other parameter as it was |
| PaginationControls.NextParams | components/PaginationControls.tsx:22-23 | the next link holds one `page` value, current + 1, and every other parameter as it was |
| PaginationControls.LinksKeepKey | components/PaginationControls.tsx:20-23 | both links keep one key other than `page` as it was |
| PaginationControls.DisablePrev | components/PaginationControls.tsx:25 | the previous link is disabled exactly while loading or when it would not move back a page |
| PaginationControls.DisableNext | components/PaginationControls.tsx:26 | the next link is enabled exactly when there is a next page and nothing is loading |
| PaginationControls.Href | components/PaginationControls.tsx:40-52 | a disabled link is the form's bare target, an enabled one the form's target for its parameters; with a `?`-free path, the link has a query exactly when enabled |
| PaginationControls.PrevReadsBack | components/PaginationControls.tsx:21-25 | the previous link reads back as max(1, current - 1), current - 1 when enabled |
| PaginationControls.NextReadsBack | components/PaginationControls.tsx:23 | the next link reads back as current + 1 from any page ≥ 1 |
| PaginationControls.HrefShape | components/PaginationControls.tsx:40-52 | a disabled link is the bare path (`/showcases` when null); an enabled one is path, `?` and the link's parameters |
| ShowcaseExplorer.PagesBeforeIsProduct | components/ShowcaseExplorer.tsx:36 | the offset is `(page - 1) * pageSize` |
| ShowcaseExplorer.Truthy | components/ShowcaseExplorer.tsx:45-46 | falling back to `undefined` drops exactly missing and empty values |
| ShowcaseExplorer.FiltersFor | components/ShowcaseExplorer.tsx:42-49 | the filters ask for `pageSize + 1` records from the page's first record |
| ShowcaseExplorer.FiltersForNeighbours | components/ShowcaseExplorer.tsx:36-47 | the next page's window starts one page size later, the previous one earlier |
| ShowcaseExplorer.ParseSearchParams | components/ShowcaseExplorer.tsx:33-50 | the page as `usePagination` reads it; `q` untrimmed; empty stack and difficulty dropped; limit `pageSize + 1`; offset `(page - 1) * pageSize` |
| ShowcaseExplorer.SubmissionReadsBack | components/ShowcaseExplorer.tsx:33-50 | a filter-form submission reads back as the form's filters, on the first page |
| ShowcaseExplorer.NextPageFilters | components/ShowcaseExplorer.tsx:33-50 | the next link keeps the filters and moves the window on by one page |
| ShowcaseExplorer.PrevPageFilters | components/ShowcaseExplorer.tsx:33-50 | after the first page, the previous link keeps the filters and moves the window back one page |
| ShowcaseExplorer.Page | components/ShowcaseExplorer.tsx:86-87 | at most `pageSize` records, a prefix of those fetched; `hasNext` exactly when more came back |
| ShowcaseExplorer.LookAhead | components/ShowcaseExplorer.tsx:86-87 | asking for one more than a page shows exactly that page, and `hasNext` exactly when a record follows |
| ShowcaseExplorer.NextEnabledIffMore | components/ShowcaseExplorer.tsx:87-142 | once loading ends, a page fetched with one record of look-ahead has its next link enabled exactly when a record follows the page |
| ShowcaseExplorer.ExplorerFallbackPage | components/ShowcaseExplorer.tsx:76-88 | offline, the explorer shows exactly the URL's page of the newest-first matching records |
| ShowcaseExplorer.ExplorerState.constructor | components/ShowcaseExplorer.tsx:61-65 | the first state is the server-rendered records and flag, not loading |
| ShowcaseExplorer.ExplorerState.BeginFetch | components/ShowcaseExplorer.tsx:79 | `loading` is set and the rest kept |
| ShowcaseExplorer.ExplorerState.Settle | components/ShowcaseExplorer.tsx:82-89 | unless cancelled, the page cut from the data is shown and loading ends; cancelled, nothing changes |
| ShowcaseExplorer.ExplorerState.Fail | components/ShowcaseExplorer.tsx:90-95 | unless cancelled, the initial records and flag come back and loading ends |
| ListingPage.ParamOf | app/showcases/page.tsx:24-30 | a key is missing, one value or an array exactly as the query string holds none, one or several |
| ListingPage.ParseTags | app/showcases/page.tsx:32-42 | missing or `''` gives `[]`, one value a one-element list, an array itself |
| ListingPage.ServerTagsMatchClient | app/search/page.tsx:31-36 | the server's tags are the client's `getAll('tags')`, except a lone empty `tags=` |
| ListingPage.PageNumberAsWritten | app/showcases/page.tsx:45 | `NaN` and 0 read as 1, every other number as itself |
| ListingPage.NegativePageAsWritten | app/search/page.tsx:39-40 | `?page=-1` reads as page -1, offset -24, where the client reads page 1 |
| ListingPage.PageNumber | app/showcases/page.tsx:45 | the corrected page number is at least 1 |
| ListingPage.PageNumberMatchesClient | app/showcases/page.tsx:45 | the corrected page number is the client's `usePagination` |
| ListingPage.PageNumberAgrees | app/search/page.tsx:39 | both readings agree on `NaN` and every number ≥ 1 |
| ListingPage.ListingFilters | app/showcases/page.tsx:45-57 | the URL's filters, the parsed tags, limit `PAGE_SIZE + 1`, and for any page number from 1 on a non-negative offset that is a multiple of `PAGE_SIZE` and ends the pages before it |
| ListingPage.ListingWindowOf | app/showcases/page.tsx:46-57 | from page 1 on, the server's window is the explorer's `(page - 1) * pageSize` offset and `pageSize + 1` limit |
| ListingPage.ListingWindowMatchesClient | app/search/page.tsx:39-51 | the server asks for the same window as the explorer for the same URL |
| ListingPage.ListingPage | app/showcases/page.tsx:61-62 | exactly min(fetched, `PAGE_SIZE`) records, a prefix of those fetched; `hasNext` exactly when more came back |
| Strings.Trim | lib/meta.ts:25 | the result is no longer than the text and neither starts nor ends with white space |
| Strings.TrimIsSlice | lib/meta.ts:25 | `trim` returns a contiguous slice of the text and everything outside it is white space |
| Strings.LowerEquals | lib/showcase-data.ts:70 | lower-casing gives a lower-case word exactly when the text equals it up to ASCII case |
| Strings.CollapseWhitespace | lib/meta.ts:52 | `replace(/\s+/g, ' ')` leaves single spaces and no other white space |
| Strings.CollapseKeepsVisible | lib/meta.ts:52 | the visible characters are kept, all of them and in order |
| Strings.CollapseRun | lib/meta.ts:52 | a non-empty run of white space becomes one space |
| Strings.CollapseVisibleText | lib/meta.ts:52 | text without white space is left as it is |
| Strings.CollapseAppend | lib/meta.ts:52 | collapsing distributes over a join that does not split a white-space run, so each run becomes one space in place |
| Strings.ParseIntNaN | components/ShowcaseFilters.tsx:207 | `parseInt` is `NaN` exactly when no digit follows the leading white space and one optional sign; a negative value needs a `-` |
| Strings.ParseIntOfIntToString | components/PaginationControls.tsx:21-23 | `parseInt(n.toString())` is n |
| Strings.ParseIntOfPadded | lib/showcase-data.ts:122-124 | a zero-padded number parses back to itself |
| Strings.PadStart | lib/showcase-data.ts:122-124 | `padStart` fills on the left up to the width |
| Strings.ContainsAt | lib/i18n.ts:11 | `includes` holds exactly when the text occurs at some position |
| Strings.Utf16 | lib/showcase-data.ts:75-76 | `charCodeAt` walks UTF-16 code units, at least one per character |
| Seqs.JsSlice | lib/showcase-data.ts:66 | `slice` with JavaScript's negative and out-of-range indices is a contiguous run |
| Seqs.WindowExact | lib/showcase-data.ts:66 | for non-negative offset and limit, the window is the positions that exist |
| Seqs.Dedup | lib/showcase-data.ts:6-12 | `Array.from(new Set(..))` is duplicate-free, keeps every member and the first element |
| Sorting.SortBy | lib/showcase-data.ts:22 | the sort is a permutation |
| Sorting.SortBySorted | lib/showcase-data.ts:22 | with a total-preorder comparator the result is sorted |
| Sorting.SortByStable | lib/showcase-data.ts:22 | elements comparing equal keep their input order |
| Sorting.CompareStringsPreorder | lib/supabase.ts:154 | the default sort order on strings is a total preorder |

## Left out

- `Intl.DateTimeFormat` for Asia/Shanghai is a fixed +8 hour offset (the zone has no daylight saving), and the formatter's parts are rendered from that date. A formatter that prints hour `24` at midnight is not modelled.
- `toLowerCase` is modelled on ASCII letters only; `trim` and `\s` use the ECMAScript white-space and line-terminator set.
- `Date.parse` is the parameter `parse`, and `new Date()` is the instant parameter `t`.
- Properties of the recency sort that need numeric keys are stated under that assumption. With a `NaN` key the comparator is inconsistent and the order is engine-defined.
- `DailyFeatured.Scale`: `Math.floor(random() * n)` is the exact integer `((v - 1) * n) div 2147483646`. Floating-point rounding of the division is not modelled.
- `Strings.ParseIntOfIntToString`, `ShowcaseFiltersForm.PageReadsBack` and `PaginationControls.NextReadsBack`: page numbers are unbounded integers. JavaScript numbers are doubles, so past 2^53 `currentPage + 1` stops incrementing, `parseInt` of a long digit run rounds, and from 10^21 on `toString()` prints exponent notation, which `parseInt` reads as its leading digit. Their promises match the source only for page numbers below 2^53.
- `DailyFeatured.HashString` hashes UTF-16 code units, as `charCodeAt` does. The cycle key is ASCII.
- The copy of the sampler in components/HomeLanding.tsx is covered by the `DailyFeatured` model and not modelled separately.
- `normalizeUrl` (the `URL` constructor) is not part of this model. `SITE_URL` and `NEXT_PUBLIC_DEFAULT_LOCALE` are string parameters.
- The other metadata builders of lib/meta.ts (home, listing, legal) are fixed-text calls to the modelled functions and are left out.
- `Meta.RangedBounds`: the bounds need a non-empty filler and min ≤ max. The source's constants satisfy both.
- Database clients and queries, including `fetchShowcases` with a client and `fetchShowcaseByUserAndSlug`, are network I/O. A table's answer is the `respond` parameter, and the client cache is left out.
- `SHOWCASE_TABLE_CANDIDATES` is computed once, as `TableCandidates`. `FetchShowcasesClient` takes it as a parameter.
- The pages' query is the offline `fetchShowcases`. The server listing is modelled by its filters and its page cut; the fetch in between is not modelled.
- `URLSearchParams` parsing (percent-decoding) is not modelled. Components receive the already-decoded entries, and serialisation is modelled to the byte.
- Next.js hands `q`, `stack`, `difficulty` and `page` to the pages as optional strings. A repeated key among these is not modelled.
- The JSX rendering of every component is left out, and so are React scheduling and effect ordering. A rejected fetch is the `Fail` method.
- `pageSize` is a natural number. The source's prop is any number, but is only ever `PAGE_SIZE` (12).
- `ShowcaseFiltersForm.FilterForm.Submit` leaves the form's fields unchanged. `router.push` becomes the returned target.

## Findings

| source | as written | input that shows it | evidently intended | confidence | as-written member | corrected member |
|---|---|---|---|---|---|---|
| app/showcases/page.tsx:45-46, app/search/page.tsx:39-40 | the page number falls back to 1 but maps only `NaN` and 0 to 1, so negative pages pass through and give a negative offset, which `slice` counts from the end of the data | `?page=-1` gives page -1 and offset -24, while the client explorer reads the same URL as page 1 | clamp to page 1 as `usePagination` and `parseSearchParams` do | not executed | ListingPage.NegativePageAsWritten | ListingPage.PageNumberMatchesClient |
