# Project grouping and filtering for the works gallery

This project models `app/lib/api-data-processor.ts`, the module the works pages use to turn the backend's flat list of work resources into gallery projects, and to filter and search that list.

- **Grouping.** `groupWorksByProject` keys every work by its normalised title. `normalizeProjectTitle` strips a trailing `-<digits>`, then trailing whitespace followed by digits, trims the rest and looks it up in a fixed table of canonical spellings.
  - The works are gathered into a `Map` in first-seen order.
  - Each group is sorted: videos first, then by image type (`detectImageTypeFromWork`: tag names first, then title keywords, else Hero).
  - Each group becomes a project.
  - The projects are sorted largest first.
- **Suggestions.** `getProjectTitleSuggestions` returns the distinct normalised titles, sorted.
- **Filters.** `filterWorksByCategory`, `filterWorksByTag` and `searchWorks` are the list filters.
- **Response.** `transformApiResponse` unwraps a response envelope.

## Modules

| file | module | models |
|---|---|---|
| `text.dfy` | `JsText` | the JavaScript string operations used: `\d`, `\s`, `trim`, `toLowerCase`, `includes`, integer `toString`, the default string order |
| `stable_sort.dfy` | `StableSort` | `Array.prototype.sort` with a comparator, as an in-place stable insertion sort, proved equal to the unique sorted and stable arrangement |
| `works.dfy` | `Works` | the records: work resources, tags, projects, project images |
| `titles.dfy` | `Titles` | `normalizeProjectTitle` |
| `prototype_lookup.dfy` | `PrototypeLookup` | the table lookup as written (see Findings) |
| `image_types.dfy` | `ImageTypes` | `detectImageTypeFromWork`, the type priorities and the comparator of `sortWorksWithinProject` |
| `sequences.dfy` | `Seqs` | `Array.prototype.filter`, subsequences, sums |
| `groups.dfy` | `KeyedGroups` | filling a `Map` or `Set` keyed by a function, in first-seen order |
| `grouping.dfy` | `Grouping` | `groupWorksByProject`, `sortWorksWithinProject`, `getProjectTitleSuggestions` |
| `grouping_props.dfy` | `GroupingProperties` | what the grouping promises |
| `filters.dfy` | `Filters` | `transformApiResponse` and the three filters |

The methods keep the source's own steps:
- the `forEach` loops that fill the `Map` and the `Set`;
- the per-entry conversion, which sorts a group in place and maps it to images. The model's `Map` holds sequences, so each group is copied into an array and sorted there. The source sorts the `Map`'s own array, which no caller can observe;
- the final in-place sort.

Each method is proved equal to a specification function (`GroupedProjects`, `TitleSuggestions`), and the lemmas in `GroupingProperties` state what those functions guarantee.

Most of the grouping specification takes the grouping key as a parameter (`GroupedProjectsBy(works, key)`, with `GroupedProjects(works) == GroupedProjectsBy(works, TitleKey)`). The `...By` lemmas therefore hold for any key, and the title-specific lemmas instantiate them.

`\d` is `[0-9]`, and `\s` and `trim` use the full ECMAScript WhiteSpace and LineTerminator set, as in JavaScript.

Approximations of JavaScript semantics, all deliberate:
- `toLowerCase` lower-cases only `A`-`Z`.
- The default sort compares strings character by character. A Dafny `char` is a Unicode scalar value, where JavaScript compares UTF-16 code units.

## Model

| member | source | states |
|---|---|---|
| `Titles.StripHyphenNumber` | app/lib/api-data-processor.ts:68 | transcribes `.replace(/-\d+$/, '')`: cut the trailing digits and the `-` before them, if there are both; `StripHyphenNumberIsRegexReplace` relates it to the regex |
| `Titles.StripSpaceNumber` | app/lib/api-data-processor.ts:69 | transcribes `.replace(/\s+\d+$/, '')`: cut the trailing digits and the whole run of blanks before them, if there are both; `StripSpaceNumberIsRegexReplace` relates it to the regex |
| `Titles.StrippedTitle` | app/lib/api-data-processor.ts:67-70 | transcribes the chain `title.replace(...).replace(...).trim()`, in that order |
| `Titles.SpecialCases` | app/lib/api-data-processor.ts:73-94 | the `specialCases` table, entry for entry (a constant; its properties are the `SpecialCases...` lemmas below) |
| `Titles.Lookup` | app/lib/api-data-processor.ts:96 | transcribes `specialCases[normalized] \|\| normalized` over own entries: the value when the key is listed and the value is non-empty, else the key |
| `Titles.NormalizeProjectTitle` | app/lib/api-data-processor.ts:65-97 | transcribes `normalizeProjectTitle` with the own-entry lookup: `Lookup(SpecialCases, StrippedTitle(title))` (see Findings for the lookup as written) |
| `Titles.StripHyphenNumberIsRegexReplace` | app/lib/api-data-processor.ts:68 | removing `-<digits>` at the end is exactly the replacement of `/-\d+$/`: the match's prefix when it matches, the title unchanged when it does not |
| `Titles.StripSpaceNumberIsRegexReplace` | app/lib/api-data-processor.ts:69 | removing whitespace plus digits at the end is the replacement of `/\s+\d+$/` at its leftmost match, and the identity without a match |
| `Titles.TrimUnique` | app/lib/api-data-processor.ts:70 | `trim` of blanks, a core that neither starts nor ends with a blank, and blanks is exactly that core |
| `Titles.CleanTitleIsStripped` | app/lib/api-data-processor.ts:67-70 | a title without numeric suffix or surrounding blanks is left unchanged by the stripping steps |
| `Titles.HyphenVariantStripped` | app/lib/api-data-processor.ts:67-70 | appending `-<digits>` to a title without a numeric suffix does not change its stripped form |
| `Titles.SpaceVariantStripped` | app/lib/api-data-processor.ts:67-70 | appending blanks and digits to such a title does not change its stripped form |
| `Titles.TrimIgnoresTrailingWhitespace` | app/lib/api-data-processor.ts:70 | trimming ignores blanks already at the end |
| `Titles.NumberedVariantsShareKey` | app/lib/api-data-processor.ts:65-97 | numbered variants ("Tropical House-2", "Tropical House 3") normalise to the same key as the plain title |
| `Titles.SpecialCasesKeysClean` | app/lib/api-data-processor.ts:73-94 | no table key has a numeric suffix or surrounding blanks |
| `Titles.SpecialCasesValuesAreKeys` | app/lib/api-data-processor.ts:73-94 | every canonical spelling except "Complex Apartment" and "Osan Apartment" is itself a key |
| `Titles.SpecialCasesValuesClean` | app/lib/api-data-processor.ts:73-94 | no canonical spelling has a numeric suffix or surrounding blanks |
| `Titles.SpecialCasesValuesNonEmpty` | app/lib/api-data-processor.ts:73-96 | every canonical spelling is non-empty, so `||` always picks it |
| `Titles.CanonicalTitlesAreFixed` | app/lib/api-data-processor.ts:73-94 | a canonical spelling that is also a key maps to itself |
| `Titles.SpecialCasesAreCanonicalTable` | app/lib/api-data-processor.ts:73-94 | the table has all the properties above |
| `Titles.CanonicalTableEntry` | app/lib/api-data-processor.ts:67-96 | in such a table, a key normalises to its value and a value to itself |
| `Titles.SpecialCasesAreCanonical` | app/lib/api-data-processor.ts:65-97 | normalisation sends each listed alias to its canonical title (e.g. "Dongdeamun Design Plaza" to "Dongdaemun Design Plaza") and each canonical title to itself |
| `PrototypeLookup.NormalizeAsWritten` | app/lib/api-data-processor.ts:65-97 | transcribes `normalizeProjectTitle` with the lookup as written: `LookupAsWritten(SpecialCases, StrippedTitle(title))`, whose result may be an inherited member |
| `PrototypeLookup.LookupAsWritten` | app/lib/api-data-processor.ts:96 | the lookup as written yields an inherited member exactly when the key is not an own entry but names a member of `Object.prototype` |
| `PrototypeLookup.LookupsAgreeOffInheritedNames` | app/lib/api-data-processor.ts:96 | away from inherited names, the lookup as written returns the own-entry lookup's string |
| `PrototypeLookup.AsWrittenAgreesOffInheritedNames` | app/lib/api-data-processor.ts:65-97 | the same for the whole normalisation |
| `PrototypeLookup.ToStringTitleIsNotAString` | app/lib/api-data-processor.ts:65-97 | the title "toString" yields an inherited member as written, and "toString" with own entries only |
| `PrototypeLookup.LookupIsOwnEntryOrKey` | app/lib/api-data-processor.ts:96 | with non-empty values, the own-entry lookup returns the table value when the key is listed, else the key |
| `PrototypeLookup.NormalizeIsCanonicalOrStripped` | app/lib/api-data-processor.ts:65-97 | the normalised title is the table's spelling of the stripped title when listed, else the stripped title |
| `ImageTypes.DetectImageTypeFromWork` | app/lib/api-data-processor.ts:124-142 | transcribes the classifier: the three exact tag checks on lower-cased English tag names, then the five keyword checks on the lower-cased title, in source order, else Hero |
| `ImageTypes.Priority` | app/lib/api-data-processor.ts:101-108 | every type's priority is between 1 and 6 |
| `ImageTypes.LowerTagNames` | app/lib/api-data-processor.ts:125 | one lower-cased English name per tag, in order |
| `ImageTypes.ContainsAnyMeans` | app/lib/api-data-processor.ts:134-138 | a title rule fires exactly when the title contains one of its words |
| `ImageTypes.TagRulesUnfold` | app/lib/api-data-processor.ts:129-131 | the tag rules are `aerial`, `exterior`, `interior`, matched exactly against the lower-cased tag names |
| `ImageTypes.TitleRulesUnfold` | app/lib/api-data-processor.ts:134-138 | the five title rules and their keywords, matched as substrings of the lower-cased title |
| `ImageTypes.FirstTagRuleDecides` | app/lib/api-data-processor.ts:124-131 | the first tag rule that fires decides the type |
| `ImageTypes.FirstTitleRuleDecides` | app/lib/api-data-processor.ts:124-138 | without a decisive tag, the first title rule that fires decides the type |
| `ImageTypes.HeroIffNoRule` | app/lib/api-data-processor.ts:124-142 | the type is Hero exactly when no tag rule and no title rule fires |
| `ImageTypes.TagsOverrideTitle` | app/lib/api-data-processor.ts:128-138 | with a decisive tag, the title does not matter and the type is Aerial, Exterior or Interior |
| `ImageTypes.TitleDecidesWithoutDecisiveTag` | app/lib/api-data-processor.ts:133-141 | without a decisive tag, the tags do not matter |
| `Works.HasVideo` | app/lib/api-data-processor.ts:112-113 | transcribes the truthiness of `work.link_video`: a non-empty string |
| `ImageTypes.CompareWorks` | app/lib/api-data-processor.ts:110-120 | transcribes the comparator: `-1` when only `a` has a video, `1` when only `b` has one, else the difference of the type priorities |
| `ImageTypes.TagBeatsTitleExample` | app/lib/api-data-processor.ts:124-131 | a work tagged "Exterior" and titled "Night Aerial View" is Exterior: the tag check comes before the title's "aerial" |
| `ImageTypes.WorkPrecedes` | app/lib/api-data-processor.ts:110 | the comparator read as "may stay in front": `CompareWorks(a, b) <= 0` |
| `ImageTypes.WorkSortKey` | app/lib/api-data-processor.ts:110-120 | the composite key the comparator orders by: `0` for a work with a video and `6` without, plus the type priority; `CompareWorksOrdersByKey` ties the comparator's sign to it |
| `ImageTypes.CompareWorksOrdersByKey` | app/lib/api-data-processor.ts:110-120 | the comparator's sign is that of the difference of a composite key (video status, then type priority), and it is antisymmetric |
| `ImageTypes.WorkPrecedesIsTotalPreorder` | app/lib/api-data-processor.ts:110-120 | the comparator is consistent (total and transitive), so the sort result is well defined |
| `ImageTypes.SortedWorksOrder` | app/lib/api-data-processor.ts:110-120 | in a sorted list no work without a video precedes one with a video, and works of equal video status are in non-decreasing type priority |
| `StableSort.SortBy` | app/lib/api-data-processor.ts:110 | the result of `works.sort(comparator)`, as a stable insertion sort on values; it keeps the length, and the lemmas below pin it down as the unique stable sort |
| `StableSort.SortByPermutes` | app/lib/api-data-processor.ts:110 | sorting is a permutation |
| `StableSort.SortByIsSorted` | app/lib/api-data-processor.ts:110 | sorting with a consistent comparator gives a sorted list |
| `StableSort.SortByIsStable` | app/lib/api-data-processor.ts:110 | elements that compare equal keep their order |
| `StableSort.SortByIsTheStableSort` | app/lib/api-data-processor.ts:110 | any sorted, stable arrangement equals the model's sort, whatever algorithm the engine uses |
| `StableSort.SortInPlace` | app/lib/api-data-processor.ts:110 | the in-place sort leaves the array holding the stable sort of its old contents |
| `Grouping.TitleKey` | app/lib/api-data-processor.ts:28 | transcribes `normalizeProjectTitle(work.title)`, the key each work is grouped under |
| `Grouping.ImageUrl` | app/lib/api-data-processor.ts:45 | transcribes `work.optimize_attachment_url \|\| work.attachment_url`: the optimised url when present and non-empty, else the attachment url |
| `Grouping.ToImage` | app/lib/api-data-processor.ts:43-50 | transcribes the image literal: `id` from the slug, `url`, `title`, `description`, `type` from the classifier, `tags` from the English tag names |
| `Grouping.ProjectBefore` | app/lib/api-data-processor.ts:61 | transcribes the comparator `(a, b) => b.totalImages - a.totalImages` as "may stay in front" (`<= 0`) |
| `Grouping.SortedGroup` | app/lib/api-data-processor.ts:41 | a group after `sortWorksWithinProject`: `SortBy` of the `Map`'s array under the key with the video-then-type order |
| `Grouping.ProjectOf` | app/lib/api-data-processor.ts:41-57 | the project one `Map` entry becomes: `ProjectFrom` of its key and its sorted group |
| `Grouping.GroupedProjectsBy` | app/lib/api-data-processor.ts:23-61 | `groupWorksByProject` for any grouping key: the projects of the first-seen keys, in `Map` order, sorted by `ProjectBefore` |
| `Grouping.GroupedProjects` | app/lib/api-data-processor.ts:23-62 | the specification of `groupWorksByProject`: the first-seen groups under the normalised title, each turned into a project from its sorted works, then sorted largest first |
| `Grouping.TitleSuggestions` | app/lib/api-data-processor.ts:150-158 | the specification of `getProjectTitleSuggestions`: the first-seen normalised titles, sorted by the default string order |
| `Grouping.SortWorksWithinProject` | app/lib/api-data-processor.ts:100-121 | sorts a project's works in place with the video-then-type comparator |
| `Grouping.EnglishTagNames` | app/lib/api-data-processor.ts:49 | one English name per tag, in order |
| `Grouping.Images` | app/lib/api-data-processor.ts:43-50 | one image per work |
| `Grouping.ImagesAt` | app/lib/api-data-processor.ts:43-50 | image `i` is work `i`'s image: slug, url, title, description, type, tag names |
| `Grouping.ImagesMembers` | app/lib/api-data-processor.ts:43-50 | the images are exactly the images of the works |
| `Grouping.ProjectFrom` | app/lib/api-data-processor.ts:52-57 | a project from a non-empty sorted group has `totalImages == images.length == group size`, and the first image's description |
| `Grouping.ProjectsInMapOrder` | app/lib/api-data-processor.ts:39-59 | one project per key |
| `Grouping.ProjectsInMapOrderAt` | app/lib/api-data-processor.ts:39-59 | project `j` before the sort is the project of key `j` |
| `Grouping.ProjectBeforeIsTotalPreorder` | app/lib/api-data-processor.ts:61 | the size comparator is consistent |
| `KeyedGroups.FirstSeenKeys` | app/lib/api-data-processor.ts:27-34 | the `Map`'s keys have no duplicates |
| `KeyedGroups.FirstSeenKeysMembers` | app/lib/api-data-processor.ts:27-34 | a key is in the `Map` exactly when some work has it |
| `KeyedGroups.FirstSeenKeysOfPrefix` | app/lib/api-data-processor.ts:27-34 | the keys of a prefix of the works are a prefix of the keys |
| `KeyedGroups.FirstSeenOrder` | app/lib/api-data-processor.ts:27-34 | of two keys, the earlier was seen in some prefix of the works where the later was not |
| `KeyedGroups.GroupMembers` | app/lib/api-data-processor.ts:27-34 | a group holds exactly the works with its key |
| `KeyedGroups.GroupNonEmpty` | app/lib/api-data-processor.ts:27-34 | every key's group is non-empty |
| `KeyedGroups.GroupsPartition` | app/lib/api-data-processor.ts:27-34 | group sizes add up to the number of works |
| `KeyedGroups.GroupOf` | app/lib/api-data-processor.ts:30-33 | the array the `Map` holds under a key: the works with that key, in input order (`Filter` by `key(w) == k`) |
| `KeyedGroups.GroupByKey` | app/lib/api-data-processor.ts:27-34 | the `forEach` leaves the first-seen keys, and under each key the works with that key in input order |
| `KeyedGroups.DistinctKeys` | app/lib/api-data-processor.ts:153-155 | adding each normalised title to a `Set` leaves the first-seen keys |
| `Grouping.BuildProject` | app/lib/api-data-processor.ts:41-57 | copying, sorting and mapping one group gives the project titled with the key, with one image per work, equal to `ProjectFrom` of the sorted group |
| `Grouping.ProjectsFromMap` | app/lib/api-data-processor.ts:39-59 | the `projectMap.forEach` gives one project per key in `Map` order |
| `Grouping.GroupWorksBy` | app/lib/api-data-processor.ts:23-62 | grouping under any key equals the specification `GroupedProjectsBy` |
| `Grouping.GroupWorksByProject` | app/lib/api-data-processor.ts:23-62 | `groupWorksByProject` returns `GroupedProjects(works)` |
| `Grouping.GetProjectTitleSuggestions` | app/lib/api-data-processor.ts:150-158 | `getProjectTitleSuggestions` returns `TitleSuggestions(works)` |
| `GroupingProperties.InMapOrderTitles` | app/lib/api-data-processor.ts:39-57 | project `j` before the sort is titled with key `j` |
| `GroupingProperties.InMapSizes` | app/lib/api-data-processor.ts:39-57 | the projects' sizes before the sort are the group sizes |
| `GroupingProperties.GroupingPartitionsBy` | app/lib/api-data-processor.ts:23-62 | the `totalImages` of the projects add up to the number of works |
| `GroupingProperties.GroupingPartitionsWorks` | app/lib/api-data-processor.ts:23-62 | the same for the normalised-title key |
| `GroupingProperties.NoProjectsIffNoWorks` | app/lib/api-data-processor.ts:23-62 | there are no projects exactly when there are no works |
| `GroupingProperties.InMapMembers` | app/lib/api-data-processor.ts:39-59 | the projects before the sort are exactly the keys' projects |
| `GroupingProperties.ProjectsAreGroupsBy` | app/lib/api-data-processor.ts:23-62 | a project is in the result exactly when it is the project of some key |
| `GroupingProperties.ProjectShapeBy` | app/lib/api-data-processor.ts:39-57 | every project is its title's project, its images are its sorted group's images, `totalImages == images.length ==` group size `> 0`, and its description is its first image's |
| `GroupingProperties.ProjectImagesBy` | app/lib/api-data-processor.ts:39-57 | a project's images are exactly the images of the works under its key |
| `GroupingProperties.InMapDistinct` | app/lib/api-data-processor.ts:39-59 | no project occurs twice before the sort |
| `GroupingProperties.ProjectTitlesDistinctBy` | app/lib/api-data-processor.ts:23-62 | the projects' titles are distinct |
| `GroupingProperties.ProjectTitlesDistinct` | app/lib/api-data-processor.ts:23-62 | the same for the normalised-title key |
| `GroupingProperties.EveryWorkHasItsProjectBy` | app/lib/api-data-processor.ts:23-62 | every work's image is in the project titled with its key |
| `GroupingProperties.EveryWorkHasItsProject` | app/lib/api-data-processor.ts:23-62 | every work's image is in the project titled with its normalised title |
| `GroupingProperties.ImageInProjectIff` | app/lib/api-data-processor.ts:23-62 | a work's image is in a project exactly when that project's title is the work's normalised title; with distinct titles, that is exactly one project |
| `GroupingProperties.ImageTitlesNormalise` | app/lib/api-data-processor.ts:23-62 | every image title in a project normalises to the project's title |
| `GroupingProperties.SortedGroupIsStableSort` | app/lib/api-data-processor.ts:41-42 | a project's works are a permutation of its group, sorted by the comparator, and stable |
| `GroupingProperties.ProjectImagesOrdered` | app/lib/api-data-processor.ts:41-50 | within a project, videos come first, then images in non-decreasing type priority |
| `GroupingProperties.TiedWithIsFilter` | app/lib/api-data-processor.ts:110 | the elements tied with `c` are a filter of the list |
| `GroupingProperties.WorksOfEqualRankKeepInputOrder` | app/lib/api-data-processor.ts:41-42 | works of equal video status and type keep their input order |
| `GroupingProperties.ProjectsLargestFirstBy` | app/lib/api-data-processor.ts:61 | projects come in non-increasing `totalImages` |
| `GroupingProperties.ProjectsLargestFirst` | app/lib/api-data-processor.ts:61 | the same for the normalised-title key |
| `GroupingProperties.EqualSizesKeepMapOrderBy` | app/lib/api-data-processor.ts:61 | projects of equal size keep their `Map` order |
| `GroupingProperties.EqualSizesKeepFirstSeenOrder` | app/lib/api-data-processor.ts:61 | the same for the normalised-title key |
| `GroupingProperties.MapOrderIsFirstSeenBy` | app/lib/api-data-processor.ts:27-39 | the `Map` order of projects is the order in which their keys were first seen |
| `GroupingProperties.LexLeIsTotalPreorder` | app/lib/api-data-processor.ts:157 | the default string order is total and transitive |
| `GroupingProperties.SuggestionsStrictlyAscending` | app/lib/api-data-processor.ts:150-158 | suggestions are sorted ascending, without duplicates |
| `GroupingProperties.SuggestionsAreTheTitles` | app/lib/api-data-processor.ts:150-158 | a string is suggested exactly when it is some work's normalised title |
| `Seqs.Filter` | app/lib/api-data-processor.ts:166 | a filter keeps only elements satisfying its test and never grows the list |
| `Seqs.FilterIsSubsequence` | app/lib/api-data-processor.ts:166 | a filter's result is an order-preserving subsequence |
| `Seqs.FilterCounts` | app/lib/api-data-processor.ts:166 | a kept element occurs as often as in the input; a rejected one not at all |
| `Seqs.FilterCommutes` | app/lib/api-data-processor.ts:166 | two filters can be applied in either order |
| `Seqs.SumByPermutation` | app/lib/api-data-processor.ts:61 | reordering does not change a sum |
| `Seqs.DistinctPermutation` | app/lib/api-data-processor.ts:157 | reordering keeps a list free of duplicates |
| `Filters.TransformApiResponse` | app/lib/api-data-processor.ts:145-147 | transcribes `return apiData.data` |
| `Filters.TransformApiResponseRoundTrip` | app/lib/api-data-processor.ts:145-147 | `transformApiResponse` returns the response's data unchanged: the envelope rebuilt from it is the response |
| `Filters.CategoryFilterApplies` | app/lib/api-data-processor.ts:162 | transcribes the negation of `!categorySlug \|\| categorySlug === 'all'` |
| `Filters.KeptByCategory` | app/lib/api-data-processor.ts:161-166 | the category test including the early return: every work is kept when the slug is absent, empty or `all`, else exactly those with `category.slug` equal to it |
| `Filters.FilterWorksByCategory` | app/lib/api-data-processor.ts:161-167 | result is a subsequence; each work's count is kept when its category slug equals the argument, else 0; absent, empty or `all` returns the input |
| `Filters.CategoryFilterIsFilter` | app/lib/api-data-processor.ts:161-167 | the early return included, the category filter is one filter by `KeptByCategory` |
| `Filters.TagFilterApplies` | app/lib/api-data-processor.ts:171 | transcribes the negation of `!tagId` |
| `Filters.HasTagId` | app/lib/api-data-processor.ts:176 | transcribes `work.tags.some(tag => tag.id.toString() === tagId)` |
| `Filters.KeptByTag` | app/lib/api-data-processor.ts:170-176 | the tag test including the early return: every work is kept when the id is absent or empty, else exactly those with `HasTagId` |
| `Filters.FilterWorksByTag` | app/lib/api-data-processor.ts:170-178 | result is a subsequence; a work is kept, with its count, exactly when some tag id's decimal text equals the argument; absent or empty returns the input |
| `Filters.TagFilterIsFilter` | app/lib/api-data-processor.ts:170-178 | the tag filter is one filter by `KeptByTag` |
| `Filters.TagIdTextSelectsTheId` | app/lib/api-data-processor.ts:175 | asking for an id's decimal text selects exactly the works with a tag of that id |
| `Filters.SearchApplies` | app/lib/api-data-processor.ts:182 | transcribes the negation of `!query \|\| query.trim() === ''` |
| `Filters.SearchTerm` | app/lib/api-data-processor.ts:186 | transcribes `query.toLowerCase().trim()` |
| `Filters.SomeTagNameContains` | app/lib/api-data-processor.ts:191-194 | transcribes `work.tags.some(tag => tag.name.en.toLowerCase().includes(term) \|\| tag.name.ko.toLowerCase().includes(term))` |
| `Filters.MatchesTerm` | app/lib/api-data-processor.ts:189-194 | transcribes the search test: the lower-cased title, description, or some tag's lower-cased English or Korean name includes the term |
| `Filters.KeptBySearch` | app/lib/api-data-processor.ts:181-194 | the search test including the early return: every work is kept when the search does not apply, else exactly those with `MatchesTerm` |
| `Filters.SearchWorks` | app/lib/api-data-processor.ts:181-195 | result is a subsequence; a work is kept, with its count, exactly when the lower-cased title, description or a tag's English or Korean name contains the trimmed lower-cased query; absent, empty or blank returns the input |
| `Filters.SearchIsFilter` | app/lib/api-data-processor.ts:181-195 | the search is one filter by `KeptBySearch` |
| `Filters.TrimEmptyIffBlank` | app/lib/api-data-processor.ts:182 | `trim()` gives `''` exactly when the string is all blanks |
| `Filters.SearchTermNonEmpty` | app/lib/api-data-processor.ts:182-186 | whenever the search filters, its term is non-empty |
| `Filters.ToLowerKeepsBlanks` | app/lib/api-data-processor.ts:186 | lower-casing keeps a string all blanks exactly when it was |
| `Filters.ToLowerIdempotent` | app/lib/api-data-processor.ts:186 | lower-casing twice is lower-casing once |
| `Filters.SearchQueryCaseAgrees` | app/lib/api-data-processor.ts:182-186 | lower-casing the query changes neither whether the search applies nor its term |
| `Filters.SearchIgnoresQueryCase` | app/lib/api-data-processor.ts:181-195 | searching for a query and for its lower-cased form gives the same works |
| `Filters.FiltersCommute` | app/lib/api-data-processor.ts:161-195 | category, tag and search filters can be chained in any order |
| `JsText.IsDigit` | app/lib/api-data-processor.ts:68-69 | `\d`: the characters `0`-`9` |
| `JsText.IsWhitespace` | app/lib/api-data-processor.ts:69-70 | `\s` and what `trim` removes: the ECMAScript WhiteSpace and LineTerminator code points |
| `JsText.LowerChar` | app/lib/api-data-processor.ts:125-126 | `toLowerCase` on one character: `A`-`Z` become `a`-`z`, every other character is unchanged |
| `JsText.ToLower` | app/lib/api-data-processor.ts:125-126 | `toLowerCase`: the same length, and each character lower-cased by `LowerChar` (also used at :186 and :189-193) |
| `JsText.LexLe` | app/lib/api-data-processor.ts:157 | the default `sort()` order on strings: lexicographic on characters, a proper prefix first |
| `JsText.Trim` | app/lib/api-data-processor.ts:70 | the trimmed string is a slice with only blanks cut off at either end, and neither starts nor ends with a blank |
| `JsText.Contains` | app/lib/api-data-processor.ts:134-138 | `includes` holds exactly when the needle occurs at some index |
| `JsText.IntToString` | app/lib/api-data-processor.ts:176 | `tag.id.toString()` on an integer: a leading `-` exactly for negative ids, then the decimal digits without leading zeros |
| `JsText.IntToStringRoundTrip` | app/lib/api-data-processor.ts:175 | an integer's decimal text reads back as the integer |
| `JsText.IntToStringInjective` | app/lib/api-data-processor.ts:175 | distinct integers have distinct decimal texts |
| `JsText.LexLeTotal` | app/lib/api-data-processor.ts:157 | any two strings are ordered one way or the other |
| `JsText.LexLeTransitive` | app/lib/api-data-processor.ts:157 | the string order is transitive |
| `JsText.LexLeAntisymmetric` | app/lib/api-data-processor.ts:157 | strings ordered both ways are equal |

## Left out

- The API client, the route loaders and the React components that call these functions are not part of this model. The works are a parameter.
- The `tags` field is read by the processor but is not declared on `WorkResource` in `app/types/works.ts`. It is modelled from its use: a list of `{ id, name: { en, ko } }`.
- Fields the processor never reads are not modelled: ids, translations, dates, attachments, `video_link`, and every category field except `slug`.
- `link_video` is a string that counts as truthy when non-empty. `optimize_attachment_url` is `null` (`None`) or a string, and an empty string falls through to `attachment_url`.
- `Filters.FilterWorksByTag`: tag ids are integers whose `toString()` is plain decimal text, that is integers below 1e21 in magnitude that a double represents exactly. Non-integer numbers, ids of 1e21 and above (printed as `"1e+21"`) and integers beyond 2^53 that a double rounds are not modelled.
- `JsText.ToLower`: lower-cases ASCII letters only. It does not model Unicode case mapping, for example of Korean tag names or accented Latin letters.
- `JsText.LexLe`: compares Unicode scalar values, where JavaScript compares UTF-16 code units. The orders differ only between supplementary-plane characters and BMP characters above the surrogate range.
- `StableSort.SortInPlace`: is an insertion sort, not the engine's algorithm. ECMAScript 2019 and later require `Array.prototype.sort` to be stable, and `StableSort.SortByIsTheStableSort` shows every sorted, stable result is the same. So this changes no result.
- `JsText.Option`: `undefined` for the optional filter arguments is `None`. `null` is not distinguished from `undefined`.
- Regrouping the projects' works a second time (idempotence) is not stated. A project image carries neither `link_video` nor `category`, so there is no defined way to map images back to works for this source.
- The three-title grouping example (`"Tropical House-2"`, `"Tropical House"`, `"S-Factory"` giving "Tropical House" with 2 images before "S-Factory" with 1) is not instantiated: no lemma evaluates the grouping on a particular work list. Its parts are covered by the generic lemmas `NumberedVariantsShareKey`, `GroupingPartitionsWorks` and `ProjectsLargestFirst`.
- The classifier and alias examples are covered by the generic lemmas `TagsOverrideTitle` and `SpecialCasesAreCanonical`, and the tag-over-title example also by `TagBeatsTitleExample`.
- `Grouping.GroupWorksByProject`, `Grouping.GetProjectTitleSuggestions`: equal `GroupedProjects` and `TitleSuggestions`, which use the own-entry lookup `Titles.NormalizeProjectTitle`. For a title whose stripped form names an `Object.prototype` member (`toString`, `constructor`, ...), the source as written differs; see the Findings row. They match the source as written everywhere else (`PrototypeLookup.AsWrittenAgreesOffInheritedNames`).
- `Works.WorkResource`: the model assumes every declared field exists. The source throws a `TypeError` for a work without `tags`, or with a `null` `description` or `category`, and the model cannot express a missing field.

## Findings

| source | as written | input that shows it | evidently intended | confidence | as-written member | corrected member |
|---|---|---|---|---|---|---|
| app/lib/api-data-processor.ts:96 | `specialCases[normalized] \|\| normalized` reads the object literal through its prototype chain | a work titled `toString` (or `constructor`, `valueOf`, ...): the lookup returns the inherited function, which is truthy, so the project key and the suggestion are a function instead of a string | only the table's own entries are consulted, so `toString` normalises to `"toString"` | not executed | `PrototypeLookup.NormalizeAsWritten`, `PrototypeLookup.ToStringTitleIsNotAString` | `Titles.NormalizeProjectTitle`, `PrototypeLookup.NormalizeIsCanonicalOrStripped` |
