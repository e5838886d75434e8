# PalDex search and filter, modelled in Dafny

PalDex is a web client for a catalogue of creatures ("Pals"). Its only logic beyond
fetching and rendering is on the search page: a list filter that ANDs a
case-insensitive name match, an OR test over the Pal's type names and an exact
rarity test; the vocabulary of types offered as filter badges (a first-seen,
order-preserving dedup by name); the filter controls, whose handlers update the
selected types, the rarity slider range and the search text and notify the page;
and a few colour lookups (badge classes, card and background gradients, the stat-bar
scale).

Files and modules, one per source component:

- `search_client.dfy` (`SearchClient`): `FilteredPals` (`filteredPals`), `UniqueTypes`
  (`uniqueTypes`, methods with the source's nested loops over an insertion-ordered
  map, the inner loop being `InsertTypes`) and its specification `DistinctByName`, and the lemmas tying the page to the
  controls.
- `search_and_filter.dfy` (`SearchAndFilter`): class `FilterControls` with the three
  state fields and a log of callback invocations; the pure parts (new selection,
  `hasActiveFilters`, the rarity callback value, the rarity caption) as functions.
- `utils.dfy` (`Utils`): `getTypeVariant`. `pal_card.dfy` (`PalCard`): `primaryType`,
  `getTypeGradient`, `maxStat`. `body_background.dfy` (`BodyBackground`):
  `getTypeGradient`.
- Helpers: `pal.dfy` (the record fields the logic reads), `text.dfy` (ASCII
  `toLowerCase`, `includes`), `decimal.dfy` (how `${n}` prints an integer, with a
  parser for the canonical numerals it produces), `seqs.dfy` (subsequence, no duplicates), `wrappers.dfy` (`Option` for
  `number | null`).

The controls show a rarity range slider, but only its lower bound is passed on
(`src/components/SearchAndFilter.tsx:48`), and the list keeps only Pals of exactly
that rarity (`src/components/SearchClient.tsx:29-30`).

## Model

| member | source | states |
|---|---|---|
| `SearchClient.FilteredPals` | src/components/SearchClient.tsx:18-34 | the result is a subsequence of the input (order kept); a Pal is in it iff it is in the input and passes name, type and rarity tests; each kept Pal occurs as often as in the input, a dropped one never |
| `SearchClient.MatchesSearch` | src/components/SearchClient.tsx:21-22 | the empty query matches every Pal; a match needs a query no longer than the name; a name that starts with the query (same case) matches |
| `SearchClient.MatchesTypes` | src/components/SearchClient.tsx:25-26 | an empty selection matches every Pal; otherwise a Pal matches iff one of its types has a selected name, so an untyped Pal matches only the empty selection |
| `SearchClient.MatchesRarity` | src/components/SearchClient.tsx:29-30 | matches iff the selected rarity is `null` or exactly the Pal's rarity |
| `SearchClient.NoFiltersShowsAll` | src/components/SearchClient.tsx:21-30 | query `""`, no types and rarity `null` give back the input list unchanged |
| `SearchClient.AnySelectedTypeSuffices` | src/components/SearchClient.tsx:25-26 | one selected type name among a Pal's types is enough to keep it (OR, not AND) |
| `SearchClient.ShownPalsHaveSelectedType` | src/components/SearchClient.tsx:25-26 | with a non-empty selection every shown Pal has a selected type name |
| `SearchClient.ShownPalsHaveSelectedRarity` | src/components/SearchClient.tsx:29-30 | with rarity r selected every shown Pal has rarity exactly r |
| `SearchClient.QueryIgnoresCase` | src/components/SearchClient.tsx:21-22 | queries equal after lowercasing select the same list |
| `SearchClient.CharInAnyCase` | src/components/SearchClient.tsx:21-22 | "char" and "CHAR" select the same list |
| `SearchClient.FireSelectionExample` | src/components/SearchClient.tsx:24-26 | Pals typed [fire], [water], [fire, dragon] filtered by ["fire"] give the first and third |
| `SearchClient.NarrowedRangeShowsLowerBoundOnly` | src/components/SearchAndFilter.tsx:40-50 | after a range other than [1, maxRarity], only Pals whose rarity equals the lower bound remain, and any other rarity inside the range is dropped |
| `SearchClient.MountControls` | src/components/SearchClient.tsx:50-55 | the page mounts the controls with the default `maxRarity` of 10: the parent still holds `[]` and `null`, no filter is active and the caption reads `1★ - 10★` |
| `SearchClient.ShownPalsFollowControls` | src/components/SearchClient.tsx:50-54 | the page filters with exactly the controls' selection and rarity value, so a narrowed range shows only Pals of its lower bound |
| `SearchClient.AllTypes` | src/components/SearchClient.tsx:38-39 | a type is in the list iff some Pal has it |
| `SearchClient.OfferedNamesAreThePalsTypeNames` | src/components/SearchClient.tsx:36-46 | a name is offered as a filter badge iff some type of some Pal bears it |
| `SearchClient.DistinctByNameSpec` | src/components/SearchClient.tsx:36-45 | the type vocabulary has no name twice, has exactly the names occurring in the Pals, holds for each name the first type seen under it, in first-seen order |
| `SearchClient.UniqueTypes` | src/components/SearchClient.tsx:36-46 | the nested insert-if-absent loops over the map return `DistinctByName` of all types of all Pals in order |
| `SearchClient.InsertTypes` | src/components/SearchClient.tsx:39-43 | the inner loop inserts a type only when its name is not yet a key, leaving the map holding the vocabulary of the types seen so far followed by this Pal's types |
| `SearchClient.ValuesInOrder` | src/components/SearchClient.tsx:45 | one value per inserted key, in insertion order, each the value stored under its key, so every listed value is one of the map's values |
| `SearchClient.ValuesInOrderAreEntries` | src/components/SearchClient.tsx:45 | the map's values listed in key insertion order are exactly the vocabulary entries |
| `SearchAndFilter.RemoveAll` | src/components/SearchAndFilter.tsx:34 | the name is gone, every other name keeps its count, and the rest is a subsequence of the selection |
| `SearchAndFilter.ToggledSelection` | src/components/SearchAndFilter.tsx:33-35 | the name's membership flips; an absent name is appended at the end; a present one is removed keeping the order of the others; every other name keeps its count |
| `SearchAndFilter.ToggleTwiceRestores` | src/components/SearchAndFilter.tsx:33-35 | toggling an absent name twice gives the original selection |
| `SearchAndFilter.ToggleKeepsNoDuplicates` | src/components/SearchAndFilter.tsx:33-35 | a duplicate-free selection stays duplicate-free |
| `SearchAndFilter.RarityFilterFor` | src/components/SearchAndFilter.tsx:43-48 | the callback value is `null` iff the range is [1, maxRarity], otherwise the lower bound; the upper bound is never passed on |
| `SearchAndFilter.HasActiveFilters` | src/components/SearchAndFilter.tsx:62-63 | no filter is active iff no type is selected, the range is [1, maxRarity] and the search text is empty |
| `SearchAndFilter.RarityLabel` | src/components/SearchAndFilter.tsx:107 | the caption ends in a star, has its first star last iff the two ends are equal, and the strict caption parser (numeral, star, then nothing or " - ", a numeral of another number and a star) reads it back as exactly the range |
| `SearchAndFilter.CaptionIsUnique` | src/components/SearchAndFilter.tsx:107 | any text the caption parser accepts for a range is exactly that range's caption, so the caption is `${lo}★` for equal ends and `${lo}★ - ${hi}★` otherwise and nothing else |
| `SearchAndFilter.MalformedCaptionsDoNotParse` | src/components/SearchAndFilter.tsx:107 | another separator (`1★xyz10★`), a padded numeral (`01★`) or a range with equal ends (`3★ - 3★`) is not a caption |
| `SearchAndFilter.SingleCaptionParts` | src/components/SearchAndFilter.tsx:107 | for a numeral `a`, the first star of `a★` follows it and `a★` parses to the range from `a` to `a` |
| `SearchAndFilter.RangeCaptionParts` | src/components/SearchAndFilter.tsx:107 | for numerals `a` and `b` of different numbers, the first star of `a★ - b★` follows `a` and the caption parses to the range from `a` to `b` |
| `SearchAndFilter.RangeTailParts` | src/components/SearchAndFilter.tsx:107 | after the first star, ` - b★` with `b` a numeral of another number gives `b` as the upper end |
| `SearchAndFilter.CaptionSplit` | src/components/SearchAndFilter.tsx:107 | a star-free text before the first star is split off unchanged, the parser then reading the two sides |
| `SearchAndFilter.LastTypeFilter` | src/components/SearchClient.tsx:52 | the page's `selectedTypes` after a run of callbacks: `[]` or a value some `onTypeFilter` call carried, and the value of the last call when the log ends with one |
| `SearchAndFilter.LatestTypeFilterWins` | src/components/SearchClient.tsx:52 | the `onTypeFilter` call with no later `onTypeFilter` call decides the page's `selectedTypes`, whatever follows it |
| `SearchAndFilter.NoTypeFilterKeepsFallback` | src/components/SearchClient.tsx:15 | with no `onTypeFilter` call the page keeps its initial `[]` |
| `SearchAndFilter.LastRarityFilter` | src/components/SearchClient.tsx:53 | the page's `selectedRarity` after a run of callbacks: `null` or a value some `onRarityFilter` call carried, and the value of the last call when the log ends with one |
| `SearchAndFilter.LatestRarityFilterWins` | src/components/SearchClient.tsx:53 | the `onRarityFilter` call with no later `onRarityFilter` call decides the page's `selectedRarity` |
| `SearchAndFilter.NoRarityFilterKeepsFallback` | src/components/SearchClient.tsx:16 | with no `onRarityFilter` call the page keeps its initial `null` |
| `SearchAndFilter.FilterControls.Label` | src/components/SearchAndFilter.tsx:106-108 | the caption shown for the current slider range ends in a star and the strict caption parser reads it back as exactly that range |
| `SearchAndFilter.FilterControls.constructor` | src/components/SearchAndFilter.tsx:28-30 | starts with no types, range [1, maxRarity], empty search text, no notifications, no active filter |
| `SearchAndFilter.FilterControls.ActiveFilters` | src/components/SearchAndFilter.tsx:62-63 | with the search text empty, active iff some type is selected or the range is not [1, maxRarity] |
| `SearchAndFilter.FilterControls.HandleTypeToggle` | src/components/SearchAndFilter.tsx:32-38 | the new selection becomes the state and is exactly what `onTypeFilter` receives; nothing else changes; the invariant is kept |
| `SearchAndFilter.FilterControls.HandleRarityChange` | src/components/SearchAndFilter.tsx:40-50 | the whole range becomes the state; `onRarityFilter` receives `RarityFilterFor` of it; the invariant is kept |
| `SearchAndFilter.FilterControls.ClearAllFilters` | src/components/SearchAndFilter.tsx:53-60 | back to the initial state; `[]`, `null` and `""` are sent in that order; no filter is active afterwards |
| `Utils.TypeVariant` | src/lib/utils.ts:8-21 | never empty; the entry of the lowercased name if listed, otherwise the gray fallback, which is the "normal" entry |
| `Utils.TypeVariantIgnoresCase` | src/lib/utils.ts:20 | names equal after lowercasing get the same classes |
| `Utils.FireInAnyCase` | src/lib/utils.ts:20 | "Fire", "fire" and "FIRE" all get the red entry |
| `Utils.KeysAreLowerCase` | src/lib/utils.ts:9-18 | every table key is its own lowercasing |
| `Utils.ListedNamesGetOwnEntry` | src/lib/utils.ts:9-20 | each of the eight listed names returns its own table entry |
| `Utils.UnlistedNamesGetGray` | src/lib/utils.ts:10-20 | a name not listed after lowercasing gets the gray fallback |
| `PalCard.PrimaryType` | src/components/PalCard.tsx:13 | never empty and lower case; the lowercased first type name, or "normal" when there is no type or its name is empty |
| `PalCard.TypeGradient` | src/components/PalCard.tsx:15-28 | never empty; the listed entry for each of the nine keys, the "normal" entry for any other |
| `PalCard.NeutralIsNormal` | src/components/PalCard.tsx:24-27 | the fallback equals both the "neutral" and the "normal" entry |
| `PalCard.CapitalisedFirstTypeIsLowered` | src/components/PalCard.tsx:13-27 | a card whose first type is "Fire" gets the fire gradient |
| `PalCard.UntypedPalIsNormal` | src/components/PalCard.tsx:13-27 | a card with no types gets the "normal" gradient |
| `PalCard.MaxStat` | src/components/PalCard.tsx:30 | at least each of run speed, melee attack and defense, and equal to one of them |
| `BodyBackground.TypeGradient` | src/components/BodyBackground.tsx:6-19 | never empty; the listed entry for each of the nine keys, the "normal" entry for any other |
| `BodyBackground.NeutralIsNormal` | src/components/BodyBackground.tsx:15-16 | the "neutral" and "normal" entries are the same string |
| `BodyBackground.LookupIsCaseSensitive` | src/components/BodyBackground.tsx:18 | the key is not lowercased: "Fire" gets the "normal" entry, not the fire one |
| `Text.ToLower` | src/components/SearchClient.tsx:22 | same length, each character lowered in place (ASCII letters only) |
| `Text.ToLowerIdempotent` | src/components/SearchClient.tsx:22 | lowercasing leaves no upper-case letter and a second lowercasing changes nothing |
| `Text.Includes` | src/components/SearchClient.tsx:22 | `includes`: a string that includes another is at least as long, and every prefix is included |
| `Text.IncludesEmpty` | src/components/SearchClient.tsx:21-22 | every name includes the empty query, so the `=== ''` shortcut agrees with the substring test |
| `Decimal.NatToString` | src/components/SearchAndFilter.tsx:107 | a non-empty string of decimal digits, `"0"` only for zero and no leading zero otherwise |
| `Decimal.NatNumeralRoundTrip` | src/components/SearchAndFilter.tsx:107 | a digit string without leading zero is the rendering of the natural number it stands for |
| `Decimal.NatRoundTrip` | src/components/SearchAndFilter.tsx:107 | the decimal digits of a natural number parse back to it |
| `Decimal.IntToString` | src/components/SearchAndFilter.tsx:107 | `${n}`: a leading minus exactly for negative numbers, digits everywhere else, no leading zero (so a canonical numeral), and it parses back to `n` |
| `Decimal.NumeralRoundTrip` | src/components/SearchAndFilter.tsx:107 | every canonical numeral is the rendering of the number it stands for, so integers and their `${n}` texts correspond one to one |

## Left out

- Fetching (`src/services/palService.ts`, `src/app/actions.ts`, `src/app/page.tsx`): HTTP calls and error re-wrapping, outside the model; the page's own type dedup is the same as `uniqueTypes` and is unused.
- Rendering: all JSX, `src/components/Header.tsx`, `src/app/layout.tsx`, the type context; the search text itself comes from a context file that is not part of this model, so `FilteredPals` takes it as a parameter.
- The stat-bar widths in the card: floating-point division (and a division by zero when `MaxStat` is 0).
- `cn`: a wrapper over two class-name libraries that are not part of this model.
- Lookup tables are finite maps; JavaScript object prototype keys such as "constructor" are not modelled.
- `Text.ToLower`: ASCII letters only, not full Unicode case mapping.
- `SearchAndFilter.FilterControls`: each handler sees the state left by the previous one; React's batching of state updates and stale closures are not modelled. The slider value is a pair (the slider has two thumbs); a value array of another length is not modelled.
- `maxRarity` is a constructor parameter; its default 10 is `SearchAndFilter.DefaultMaxRarity`, which `SearchClient.MountControls` uses because the search page passes none.
- `onSearch`: the page passes a no-op, so its argument is only recorded in the notification log.
- Pal fields other than name, type names and images, rarity and the three headline stats are display-only and not modelled. Numbers are unbounded integers.
