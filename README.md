# Portfolio projects site: metadata extraction, gallery filters and badge colours

This project models the logic of a small portfolio web site and proves properties about it. The site lists the projects kept in one GitHub repository, one directory per project. It reads each project's description and tags out of that project's markdown file. A gallery then lets a visitor narrow the list by name, status and tags.

Three pieces of logic are modelled, each in its own Dafny module:

- **Markdown metadata** (`Markdown`, `MarkdownLemmas` in `markdown.dfy`; `src/lib/github.ts`).
  - The markdown file is chosen from a directory listing.
  - Its text is split on `"\n"`.
  - The description is read from line index 2 with `/\*\*Project?\s*Description?:\*\*\s*(.+)/i`.
  - The tags are read from line index 4 with `/\*\*Languages?\s*&\s*Technologies?:\*\*\s*(.+)/i`. The captured group is split on commas, each piece is trimmed, and empty pieces are dropped.
  - The two regular expressions are hand-coded as matchers. The matchers are unanchored, find the leftmost match, and fold ASCII case. They model the backtracking of `\s*(.+)`.
  - The directory listing is an input. Fetching the chosen file is a parameter `download: string -> Option<string>`, where `None` is a response that is not ok.
- **Gallery** (`Gallery` in `gallery.dfy`, `TagColors` in `tag_colors.dfy`; `src/components/projects-gallery.tsx`).
  - The status options and the tag options are loops that fill an insertion-ordered map of first-seen spellings. The map is then sorted by label.
  - The table from tag to colour is built by nested loops over the tag categories in `Config` (`config.dfy`, `src/lib/config.ts`).
  - The project filter is a pure function.
  - The three filter fields are a class, `Gallery.FilterState`. Its setters, `toggleTag` and `resetFilters` are methods.
- **Badge colours** (`Badges` in `badges.dfy`; `src/lib/utils.ts`). `getBadgeColor` is modelled together with the misspelling described under "Findings". No shown file calls `getBadgeColor`: the gallery and the project page colour their badges through `tagColorByValue` (`src/components/projects-gallery.tsx:184`, `src/app/project/[name]/page.tsx:104`), so the misspelling changes no badge the site draws.

JavaScript's string built-ins are modelled in `JsString` (`js_string.dfy`): `toLowerCase`, `trim`, `\s`, `.`, `split`, `includes`, `endsWith`, and the order used for sorting. Order-preserving subsequences are modelled in `Seqs` (`seqs.dfy`). The option type is in `Options` (`options.dfy`).

Three behaviours are easy to misread; the model follows the code:

- **The description is not trimmed.** `extractDescriptionFromProject` returns `match[1]` unchanged. Trailing spaces stay in the description. A `\r` ending the line is not part of it, because `.` stops at line terminators. Because `\s*` gives characters back when `.+` needs them, a line ending in `:**` followed only by spaces yields a single space.
- **"Technology" is not accepted.** `Technologies?` accepts only "Technologies" and "Technologie". Likewise, `Project?` and `Description?` accept "Project"/"Projec" and "Description"/"Descriptio", but not "Projects". `MarkdownLemmas.TechnologyRejected` and `MarkdownLemmas.ProjectsRejected` prove the two rejections.
- **A status spelt "All" shows every project.** The status filter uses the string "all" both as its "no filter" value (`src/components/projects-gallery.tsx:65`, `:112`) and as the option value of a status that lower-cases to "all" (`:43`, `:114`). Picking that status therefore shows every project, not only those with that status. `Gallery.StatusSpeltAllShowsEverything` states it.

## Model

| member | source | states |
|---|---|---|
| Markdown.FindMarkdownFile | src/lib/github.ts:66 | None exactly when no entry has a lower-cased name ending in ".md" and a truthy download URL; otherwise the first such entry |
| Markdown.TakeLine | src/lib/github.ts:88 | the greedy `.+`: the longest prefix free of line terminators |
| Markdown.Backtrack | src/lib/github.ts:88 | `\s*` giving back characters: None exactly when every position up to k holds a line terminator; otherwise the rest of the line from the latest position where `.` matches |
| Markdown.Capture | src/lib/github.ts:88 | the group of `\s*(.+)` is non-empty and holds no line terminator; None exactly when nothing up to the end of the leading whitespace can start it |
| Markdown.Search | src/lib/github.ts:88 | a successful `match` yields a non-empty group without line terminators |
| MarkdownLemmas.SearchIsLeftmost | src/lib/github.ts:88 | the match fails exactly when no position matches; otherwise the group comes from the leftmost matching position |
| MarkdownLemmas.SearchSkipsPrefix | src/lib/github.ts:141 | not anchored: any text without `*` in front of the line changes nothing |
| MarkdownLemmas.SearchIgnoresCase | src/lib/github.ts:88 | the `i` flag: matching the lower-cased line gives the lower-cased group, and fails exactly when matching the line fails |
| MarkdownLemmas.SearchCaseInsensitive | src/lib/github.ts:141 | two spellings of a line that differ only in case both match or both fail, with groups equal up to case |
| MarkdownLemmas.CaptureOf | src/lib/github.ts:88 | whitespace and then a one-line text not starting with whitespace give exactly that text as the group, not trimmed |
| MarkdownLemmas.CaptureAfterWhitespace | src/lib/github.ts:88 | when `.` accepts the first character after the whitespace, the group is the rest of the line from there |
| Markdown.DescriptionHead | src/lib/github.ts:88 | a recognised description head leaves a suffix of the line, at least 21 characters shorter |
| Markdown.TagsHead | src/lib/github.ts:141 | a recognised tags head leaves a suffix of the line, at least 25 characters shorter |
| Markdown.TechnologiesHead | src/lib/github.ts:141 | a recognised `Technologies?:**` leaves a suffix of the text, at least 14 characters shorter |
| Markdown.MatchAt | src/lib/github.ts:88 | a match at a position needs the head there and yields a non-empty group without line terminators |
| MarkdownLemmas.DescriptionHeadOf | src/lib/github.ts:88 | `**Project` or `**Projec`, whitespace, and `Description:**` or `Descriptio:**`, in any case, are consumed, leaving the rest of the line |
| MarkdownLemmas.TechnologiesHeadOf | src/lib/github.ts:141 | `Technologies:**` or `Technologie:**` in any case is consumed, leaving the rest of the line |
| MarkdownLemmas.TagsHeadOf | src/lib/github.ts:141 | `**Languages` or `**Language`, whitespace, `&`, whitespace, and `Technologies:**` or `Technologie:**`, in any case, are consumed, leaving the rest of the line |
| MarkdownLemmas.DescriptionHeadSound | src/lib/github.ts:88 | a recognised description head is `**Project` or `**Projec`, whitespace, and `Description:**` or `Descriptio:**`, in some letter case, followed by the rest it returns |
| MarkdownLemmas.TechnologiesHeadSound | src/lib/github.ts:141 | a recognised `Technologies?:**` is `Technologies:**` or `Technologie:**`, in some letter case, followed by the rest it returns |
| MarkdownLemmas.TagsHeadSound | src/lib/github.ts:141 | a recognised tags head is `**Languages?`, whitespace, `&`, whitespace and `Technologies?:**`, in some letter case, followed by the rest it returns |
| MarkdownLemmas.ProjectsRejected | src/lib/github.ts:88 | a line starting `**Projects` has no description head at that position |
| MarkdownLemmas.TechnologyRejected | src/lib/github.ts:141 | `Technology:**` is not an accepted spelling of `Technologies?:**` |
| MarkdownLemmas.TagsHeadRejectsTechnology | src/lib/github.ts:141 | a tags line whose head says `Technology:**` does not match at that position |
| MarkdownLemmas.DescriptionLineYields | src/lib/github.ts:88-91 | a description line after any `*`-free text, with either spelling of each word, yields the text after the head and its whitespace |
| MarkdownLemmas.TagsLineYields | src/lib/github.ts:141-143 | a tags line after any `*`-free text, with either spelling of each word, yields the text after the head and its whitespace |
| Markdown.TrimAll | src/lib/github.ts:147 | same length; each piece trimmed |
| Markdown.DropEmpty | src/lib/github.ts:148 | an order-preserving subsequence of non-empty strings, each non-empty string kept as often as it occurs |
| Markdown.SplitTags | src/lib/github.ts:145-148 | every tag is non-empty and has no surrounding whitespace |
| MarkdownLemmas.TagsRoundTrip | src/lib/github.ts:145-148 | tags written `t1, t2, ...` read back as the same list, in order, with duplicates kept |
| MarkdownLemmas.DropEmptyTrimAllEmpty | src/lib/github.ts:145-148 | no tags exactly when every comma-separated piece is blank |
| MarkdownLemmas.DropEmptyKeepsNonEmpty | src/lib/github.ts:148 | a list without empty strings passes the filter unchanged |
| Markdown.Lines | src/lib/github.ts:82 | at least one line, none holding `"\n"`, and joined with `"\n"` they give the text back |
| Markdown.DescriptionFromText | src/lib/github.ts:82-96 | fewer than three lines give ""; the description never holds a line terminator |
| Markdown.TagsFromText | src/lib/github.ts:135-152 | fewer than five lines give []; every tag is non-empty and trimmed |
| MarkdownLemmas.DescriptionReadsLineTwo | src/lib/github.ts:82-96 | the description depends on line index 2 alone: its group, or "" when it does not match or is missing |
| MarkdownLemmas.TagsReadLineFour | src/lib/github.ts:135-152 | the tags depend on line index 4 alone: its split group, or [] when it does not match or is missing |
| MarkdownLemmas.DescriptionLineOfYields | src/lib/github.ts:87-91 | the line `**Project Description:** d` yields d |
| MarkdownLemmas.TagsLineOfYields | src/lib/github.ts:140-148 | the line `**Languages & Technologies:** t1, t2, ...` yields the tags t1, t2, ... |
| MarkdownLemmas.ConventionDocument | src/lib/github.ts:82-149 | a document in the markdown convention yields its description and its tags, whatever its other lines hold |
| Markdown.ExtractDescription | src/lib/github.ts:65-96 | no markdown file in the listing gives "" |
| Markdown.ExtractTags | src/lib/github.ts:118-152 | no markdown file in the listing gives [] |
| MarkdownLemmas.MetadataFromOneFile | src/lib/github.ts:66-152 | description and tags are read from the same chosen file; a missing file or a failed download acts as the empty text |
| JsString.ToLower | src/lib/github.ts:66 | same length; each character lower-cased (ASCII) |
| JsString.ToLowerIdempotent | src/lib/utils.ts:10 | lower-casing twice is lower-casing once |
| JsString.Trim | src/lib/github.ts:147 | the result is trimmed, occurs in the input, and is empty exactly when the input is all whitespace |
| JsString.TrimPadded | src/lib/github.ts:147 | whitespace around a trimmed text is removed and nothing else |
| JsString.TrimOfTrimmed | src/lib/github.ts:147 | trimming a trimmed text changes nothing |
| JsString.Split | src/lib/github.ts:82 | at least one piece; no piece holds the separator |
| JsString.JoinSplit | src/lib/github.ts:82 | joining the pieces with the separator gives the text back |
| JsString.SplitJoin | src/lib/github.ts:82 | splitting pieces joined by a separator they lack gives the pieces back |
| JsString.ContainsIff | src/components/projects-gallery.tsx:63 | `includes` holds exactly when the term occurs at some position |
| JsString.LexLeTotal | src/components/projects-gallery.tsx:46 | any two labels are comparable |
| JsString.LexLeTransitive | src/components/projects-gallery.tsx:46 | the label order is transitive |
| JsString.LexLeAntisymmetric | src/components/projects-gallery.tsx:46 | labels ordered both ways are equal |
| Gallery.FirstSeen | src/components/projects-gallery.tsx:40-45 | the map entries never hold a key twice |
| Gallery.FirstSeenFacts | src/components/projects-gallery.tsx:40-45 | every spelling's lower-casing is a key, and every entry is the first spelling of its key |
| Gallery.Insert | src/components/projects-gallery.tsx:46 | one sort step adds exactly the new entry |
| Gallery.InsertSorted | src/components/projects-gallery.tsx:46 | one sort step keeps the list sorted by label |
| Gallery.InsertDistinct | src/components/projects-gallery.tsx:46 | one sort step with a new key keeps keys distinct |
| Gallery.SortByLabel | src/components/projects-gallery.tsx:46 | a permutation, sorted by label, with distinct keys kept distinct |
| Gallery.OptionsListUnique | src/components/projects-gallery.tsx:46 | two sorted permutations of the same entries with distinct keys are equal, so the result does not depend on sort stability or on the map's order |
| Gallery.SortedFirstSeen | src/components/projects-gallery.tsx:39-47 | the sorted first-seen entries form an options list |
| Gallery.StatusOptions | src/components/projects-gallery.tsx:39-47 | each lower-cased status once, as its first spelling, a missing status counting as "Uncategorized", sorted by label, and a permutation of the first-seen entries |
| Gallery.StatusOptionsCoverProjects | src/components/projects-gallery.tsx:42-44 | every project's lower-cased status is among the options |
| Gallery.AllTagsMembers | src/components/projects-gallery.tsx:51-52 | every tag of every project is visited by the loops |
| Gallery.TagOptions | src/components/projects-gallery.tsx:49-58 | each lower-cased tag once, as its first spelling, sorted by label, and a permutation of the first-seen entries |
| Gallery.TagOptionsCoverProjects | src/components/projects-gallery.tsx:52-54 | every tag of every project appears, lower-cased, among the tag options |
| Gallery.SearchKey | src/components/projects-gallery.tsx:61 | the key is lower case, and empty exactly when the search term is all whitespace |
| Gallery.StatusValue | src/components/projects-gallery.tsx:64 | the filter's status of a project is the key of its status option, a missing status counting as "Uncategorized" |
| Gallery.Keeps | src/components/projects-gallery.tsx:62-71 | with no active filter every project is kept |
| Gallery.HasActive | src/components/projects-gallery.tsx:75-76 | not active exactly when the search key is empty, the status is "all" and no tag is selected |
| Gallery.FilterProjects | src/components/projects-gallery.tsx:60-73 | an order-preserving subsequence; a project is in it exactly when its name contains the trimmed, lower-cased term, its status matches, and it has every selected tag; each kept project occurs as often as in the input |
| Gallery.FilterKeepsAll | src/components/projects-gallery.tsx:62 | when every project is kept, the list comes back unchanged |
| Gallery.InactiveFiltersKeepAll | src/components/projects-gallery.tsx:60-76 | with no active filter, every project is shown, in order |
| Gallery.DefaultFiltersInactive | src/components/projects-gallery.tsx:75-76 | no search term, status "all" and no tag are not an active filter |
| Gallery.StatusFilterSelects | src/components/projects-gallery.tsx:64-65 | choosing a status option other than "all" shows exactly the projects whose lower-cased status is that key |
| Gallery.KeepsByStatus | src/components/projects-gallery.tsx:64-65 | with no search term and no tag, a project is kept exactly when its lower-cased status is the chosen one |
| Gallery.StatusSpeltAllShowsEverything | src/components/projects-gallery.tsx:112-116 | a status that lower-cases to "all" makes an option whose value is the "all" sentinel, and that choice shows every project |
| Gallery.RemoveAll | src/components/projects-gallery.tsx:80 | an order-preserving subsequence without the value, with every other value kept as often as it occurs |
| Gallery.Toggled | src/components/projects-gallery.tsx:80 | the value is selected afterwards exactly when it was not before; every other value keeps its count |
| Gallery.ToggleAppendsAbsent | src/components/projects-gallery.tsx:80 | an absent value is appended at the end |
| Gallery.ToggleRemovesPresent | src/components/projects-gallery.tsx:80 | a present value is removed everywhere; the rest stays, in order |
| Gallery.ToggleFlipsMembership | src/components/projects-gallery.tsx:78-82 | the toggled value is selected afterwards exactly when it was not before; other values keep their membership |
| Gallery.RemoveAllAbsent | src/components/projects-gallery.tsx:80 | removing an absent value changes nothing |
| Gallery.RemoveAllLast | src/components/projects-gallery.tsx:80 | removing a value appended to a list without it gives the list back |
| Gallery.ToggleTwiceRestores | src/components/projects-gallery.tsx:78-82 | toggling an absent value twice gives back the original selection |
| Gallery.ToggleKeepsNoDuplicates | src/components/projects-gallery.tsx:78-82 | toggling never selects a tag twice |
| Gallery.FilterState.constructor | src/components/projects-gallery.tsx:35-37 | starts with no search term, status "all", no tag, and no active filter |
| Gallery.FilterState.HasActiveFilters | src/components/projects-gallery.tsx:75-76 | active exactly when the current fields form an active filter; with no active filter, every list of projects is shown unchanged |
| Gallery.FilterState.FilteredProjects | src/components/projects-gallery.tsx:60-73 | the shown projects are an order-preserving subsequence of exactly the kept ones, each as often as in the input |
| Gallery.FilterState.SetSearchTerm | src/components/projects-gallery.tsx:99 | sets the search term and nothing else |
| Gallery.FilterState.SetStatusFilter | src/components/projects-gallery.tsx:109 | sets the status filter and nothing else |
| Gallery.FilterState.ToggleTag | src/components/projects-gallery.tsx:78-82 | the selection becomes the toggled selection, still without duplicates; the value's membership flips; the other filters are unchanged |
| Gallery.FilterState.ResetFilters | src/components/projects-gallery.tsx:84-88 | back to the initial filters, none active |
| TagColors.Put | src/components/projects-gallery.tsx:14-16 | the `forEach` keeps every old key; each key maps to the category's classes or keeps its old classes |
| TagColors.ColorTable | src/components/projects-gallery.tsx:13-18 | every classes string in the table is that of some category |
| TagColors.BuildTagColorTable | src/components/projects-gallery.tsx:13-18 | the loops compute the table of the `reduce` over the categories |
| TagColors.PutLookup | src/components/projects-gallery.tsx:14-16 | after one category the keys are the old ones plus its lower-cased tags, which map to its classes; other keys keep their classes |
| TagColors.ColorTableDomain | src/components/projects-gallery.tsx:13-18 | the keys are exactly the lower-cased tags of all categories |
| TagColors.ColorTableLastWins | src/components/projects-gallery.tsx:13-18 | a tag maps to the classes of the last category that lists it |
| Badges.KeyColor | src/lib/utils.ts:12-23 | the colour of a lower-cased key is one of the six class strings |
| Badges.KeyColorHardwareMembership | src/lib/utils.ts:20-21 | the lookup depends on the hardware list only through whether the key is on it |
| Badges.GetBadgeColor | src/lib/utils.ts:9-24 | the result is one of the six class strings |
| Badges.BadgeColorIgnoresCase | src/lib/utils.ts:10 | only the lower-cased tag matters |
| Badges.BadgeColorCaseInsensitive | src/lib/utils.ts:10 | tags equal up to case get the same colour |
| Badges.ListsDisjoint | src/lib/utils.ts:12-20 | no tag is in two of the five lists |
| Badges.BadgeColorOfList | src/lib/utils.ts:12-23 | each colour is given exactly to the lower-cased tags of its list, and "text-xs" exactly to tags in none |
| Badges.UnlistedFallback | src/lib/utils.ts:23 | a lower-case tag in none of the lists gets "text-xs" |
| Badges.HardwareRose | src/lib/utils.ts:20-21 | a lower-case tag on the hardware list gets the rose classes |
| Badges.ElectricalSystemsMisspelt | src/lib/utils.ts:20 | "electrical systems" is a hardware tag of the configuration, yet gets "text-xs"; "electrical systmes" gets rose |
| Badges.GalleryColoursElectricalSystems | src/components/projects-gallery.tsx:13-18 | the gallery's table gives "electrical systems" the rose classes, which `getBadgeColor` does not |
| Badges.CorrectedBadgeColor | src/lib/utils.ts:9-24 | the result is one of the six class strings |
| Badges.CorrectedListsAreConfig | src/lib/config.ts:14-21 | the corrected function's lists and classes are those of the five configured categories |
| Badges.CorrectedBadgeColorFollowsConfig | src/lib/config.ts:14-21 | every configured tag, in any case, gets its category's classes |
| Badges.CorrectionChangesOneTag | src/lib/utils.ts:20 | the corrected function differs from the original only on the two spellings of that tag |

## Left out

- Fetching is left out: the GitHub API listing, the file download, `response.ok`, JSON decoding, `revalidate`, `console.error` and the `try`/`catch`. The listing is an input. The download is the parameter `download`, and a failed or throwing download is its `None`. `extractDescriptionFromProject` and `extractTagsFromProject` each fetch the listing and the file on their own (`src/lib/github.ts:54-81`, `:107-134`), so on the site the two reads can see different contents. The model gives both extractors one listing and one `download` function, and `MarkdownLemmas.MetadataFromOneFile` holds only under that assumption.
- `getProjects`, `getProjectFiles` and the page components are left out. They are fetch and rendering code around the modelled logic, and the `Promise.all` fan-out in `getProjects` is concurrency.
- All JSX of the gallery is left out: `Link`, `encodeURIComponent`, the badge rendering, and the lookup of `tagColorByValue` while rendering. The React hooks `useState` and `useMemo` become plain fields and computations.
- `cn` is left out. It is a thin wrapper over the external `clsx` and `tailwind-merge` libraries.
- `toLowerCase` is modelled on ASCII letters only, and `trim`/`\s` on the fixed ECMAScript whitespace and line-terminator set. Unicode case mapping is not modelled.
- Gallery.SortByLabel: `localeCompare` is replaced by lexicographic order on characters. The real comparison is locale-dependent.
- The two regular expressions are hand-coded. No general regular-expression engine is modelled.
- `Gallery.StatusOptions` and `Gallery.TagOptions`: the JavaScript `Map` is modelled as its insertion-ordered list of entries, because `Array.from` reads it in insertion order.
- `tagColorByValue` is modelled as a Dafny `map`. The special behaviour of a plain object on a key such as `__proto__` is not modelled.
- `GITHUB_USER` in `src/lib/config.ts` is not modelled, because no modelled logic uses it.
- Status-folder path resolution, the status-grouped catalog and redirect-URL extraction are not part of this model. The shown code does not implement them. The card's `status` and `redirectUrl` fields are carried but never computed.
- The `getFolderColor` and `getStatusBadgeColor` helpers that `src/components/projects-gallery.tsx:10` imports are not part of this model: `src/lib/utils.ts` as shown does not define them at all.

## Findings

| source | as written | input that shows it | evidently intended | confidence | as-written member | corrected member |
|---|---|---|---|---|---|---|
| src/lib/utils.ts:20 | the hardware list holds "electrical systmes" | the tag "Electrical Systems", which src/lib/config.ts:20 lists under hardware, gets "text-xs" instead of the rose classes | "electrical systems", as in the configuration, so the tag gets "bg-rose-200 text-rose-700" | not executed; the misspelling stands next to the correct spelling in the configuration | Badges.ElectricalSystemsMisspelt | Badges.CorrectedBadgeColorFollowsConfig |
