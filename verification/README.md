# Library branch dashboard: lookups, tables and filters

This project models the data logic of a small library-branch dashboard. The
model covers the logic only; the charts around it are not modelled. It has
three parts.

- **The postal-code branch finder** (`js/postallookup.js`).
  - Two constant tables: branch code to name, and three-character postal
    prefix to an ordered list of branch codes.
  - Two lookups. Each normalises the input: it needs at least three
    characters, takes the first three and upper-cases them. One lookup
    returns the code list, the other the names, with nameless codes dropped.
  - The search button's handler. It trims the input, then shows either the
    "No branch found for this postal code." message or one link per code.
- **The branch page** (`js/branch.js`).
  - A fold over the rows of the branch information file. It builds a code
    to name table and a prefix to code-list table. Each list has no repeats
    and keeps the order of first occurrence.
  - The branch name shown in the title. It is the mapped name, or else the
    raw `branch` parameter.
  - The join of the selected branch's registration rows with its visits
    rows by year. The first visits row of a year decides, and years without
    visits are dropped.
  - The visits total and the new-cards total.
- **The circulation page** (`js/main.js`).
  - Keeping the 2022 and 2023 records.
  - The distinct cardholder types offered in the drop-down, in order of
    first occurrence.
  - The "All"-or-one-type selection.

Modules:

- `Options`: `Option`.
- `Text`: `trim`, `slice(0, n)` and ASCII `toUpperCase`.
- `Seqs`: the array operations.
  - `filter` and `map`.
  - De-duplication in first-occurrence order, used by both `new Set` and
    the `includes`/`push` idiom.
  - The subsequence relation.
- `PostalLookup`: the lookups and the search handler, over any two tables.
- `PostalTables`: the two concrete tables, plus lemmas on specific inputs.
- `BranchTables`: the fold and the display name.
- `BranchJoin`: the registration/visits join and the totals.
- `Circulation`: the main page's filters.

Records are taken as already-typed values, as the page sees them after
loading.

- In `js/branch.js`, the registration and visits files go through
  `d3.autoType`. Years and counts are therefore numbers (`int`), and an
  empty cell is `null` (`None`). This holds for the year cells too:
  `v.Year === r.Year` matches a `null` year with a `null` year.
- The branch information file is read without `autoType`, so its fields are
  strings. A field a row lacks is `undefined` (`None`).
- In `js/main.js`, `Year` and `CardholderType` are strings.

JavaScript details the model keeps:

- An object literal with a repeated key keeps the last value. A Dafny map
  display does the same. So the doubled `"M8W"` key in the prefix table
  resolves to `["AD"]` only, and the earlier `["LB", "HB"]` is lost.
- `x?.trim()` leaves `undefined` alone.
- `if (code && name)` needs both strings non-empty after trimming.
- `postalToBranch[prefix].includes(code)` is checked with `code` possibly
  `undefined`. A row with a postal code but no branch code therefore adds
  `undefined` to its prefix's list, once. Prefix lists are
  `seq<Option<string>>` for this reason.
- `urlParams.get("branch")` is `null` when the parameter is missing.
  - `branchMappings[null]` reads the property `"null"`, so
    `DisplayNameWithoutSelection` shows the name of a branch coded `"null"`,
    if the file has one.
  - `d.BranchCode === null` matches the rows whose code cell is empty.
- `.find(...) || {}` followed by `.Visits != null` drops both a missing
  visits row and a `null` visits cell.
- `d3.sum` skips `null`.

- `js/main.js:25` keeps records by year only and excludes no branch.
- The `postalToBranch` table that js/branch.js builds is never read by the
  page. It is modelled with the rest of the fold all the same.

## Model

| member | source | states |
|---|---|---|
| Text.Trim | js/postallookup.js:207 | the trimmed value is no longer than the input and neither starts nor ends with a whitespace or line-terminator character |
| Text.TrimRemovesOnlyWhitespace | js/postallookup.js:207 | the input is whitespace, then the trimmed value, then whitespace: trim deletes nothing else and keeps the characters in order |
| Text.TrimPadded | js/postallookup.js:207 | whitespace added on either side of a string does not change what trim returns |
| Text.TrimIdempotent | js/postallookup.js:207 | trimming a trimmed value changes nothing |
| Text.TrimOfClean | js/postallookup.js:207 | a string with no whitespace at either end is returned unchanged |
| Text.UpperAscii | js/postallookup.js:189 | upper-casing keeps the length, leaves no lower-case ASCII letter, and each character is the input's character up to ASCII case |
| Text.UpperIdentifiesCase | js/postallookup.js:189 | two characters upper-case to the same character exactly when they are equal or the same ASCII letter in different case |
| Text.Take | js/postallookup.js:189 | `slice(0, n)` has length min(length, n) and is a prefix of the string |
| Seqs.Filter | js/main.js:45 | filter keeps at most the input's elements, only elements passing the predicate, and every element that passes |
| Seqs.FilterCounts | js/main.js:45 | each passing element is kept as often as it occurs; failing ones are dropped entirely |
| Seqs.FilterKeepsOrder | js/main.js:45 | the filtered sequence is a subsequence of the input |
| Seqs.FilterAppend | js/main.js:45 | filtering distributes over concatenation |
| Seqs.FilterKeepsAll | js/main.js:45 | filtering returns the input exactly when every element passes |
| Seqs.FilterIdempotent | js/main.js:45 | filtering twice by the same predicate equals filtering once |
| Seqs.Distinct | js/main.js:27 | de-duplication yields no repeats, exactly the input's elements, ordered by the position of their first occurrence |
| Seqs.DistinctSnoc | js/branch.js:18-20 | de-duplicating a sequence extended by one element is the `includes`-then-`push` step applied to the de-duplicated prefix |
| Seqs.DistinctOfDistinct | js/main.js:27 | a sequence without repeats is its own de-duplication |
| Seqs.DistinctIdempotent | js/main.js:27 | de-duplicating twice equals de-duplicating once |
| PostalLookup.LookupKey | js/postallookup.js:188-189 | a key exists exactly when the input is present and at least three characters long; it has three characters, none lower-case, each the input's character up to case |
| PostalLookup.BranchCodesFromPostal | js/postallookup.js:196-200 | short or absent input gives no codes; a mapped key gives exactly the table's list; a non-empty result means the key is mapped |
| PostalLookup.NamesOf | js/postallookup.js:192 | the names list is no longer than the codes; every entry is the non-empty name of some code; every named code's name appears; when all codes are named the lengths agree |
| PostalLookup.NamesOfAppend | js/postallookup.js:192 | naming distributes over concatenation of code lists, so names keep the codes' order |
| PostalLookup.BranchesByPostal | js/postallookup.js:187-193 | the name lookup is the code lookup mapped through the name table with nameless codes dropped, and never longer |
| PostalLookup.KeyIgnoresCaseOnly | js/postallookup.js:189 | two inputs share a key exactly when their first three characters agree up to ASCII case |
| PostalLookup.LookupDependsOnlyOnKey | js/postallookup.js:187-200 | both lookups give the same results for inputs with the same key |
| PostalLookup.LookupIgnoresCase | js/postallookup.js:189 | inputs whose first three characters differ only in case give identical results from both lookups |
| PostalLookup.LookupIgnoresSuffix | js/postallookup.js:189 | characters after the third do not affect either lookup |
| PostalLookup.LookupFound | js/postallookup.js:190-199 | for a mapped key the codes are the table's list and the names are that list's names |
| PostalLookup.NamesOfSingleCode | js/postallookup.js:192 | a single-code result yields that code's name, or nothing when it has none |
| PostalLookup.ShowCodes | js/postallookup.js:210-234 | no codes shows only the no-branch message and highlights nothing; otherwise the heading and one link per code in order, with href `branch.html?branch=<code>` and text the name or else the raw code, and all codes highlighted |
| PostalLookup.SearchIgnoresPadding | js/postallookup.js:207-208 | whitespace typed around the postal code does not change what the search shows |
| PostalLookup.NamelessCodesHaveNoNames | js/postallookup.js:192 | codes none of which has a name give an empty name list |
| PostalLookup.NamelessCodesStillLinked | js/postallookup.js:216-223 | when every found code is nameless the name list is empty but the search still shows links, each labelled with its code |
| PostalLookup.Search | js/postallookup.js:206-234 | an input shorter than three characters shows the no-branch message and highlights nothing; links are shown exactly when some code is highlighted, one per highlighted code, each to that code's branch page |
| PostalLookup.SearchOfClean | js/postallookup.js:207-208 | an input without whitespace at either end is looked up as typed |
| PostalLookup.SearchWithoutCodes | js/postallookup.js:206-212 | an input without surrounding whitespace whose lookup finds no codes shows the no-branch message and highlights nothing |
| PostalLookup.ShowOneNamelessCode | js/postallookup.js:220-223 | a single nameless code is shown as one link labelled with the code |
| PostalTables.DuplicatePrefixInDistrict | js/postallookup.js:171-176 | within the Etobicoke block the second `"M8W"` entry wins |
| PostalTables.DuplicatePrefixResolvesToLater | js/postallookup.js:173-176 | in the whole prefix table `"M8W"` maps to `["AD"]` |
| PostalTables.DuplicatePrefixCodes | js/postallookup.js:176 | the input "m8w 2A1" finds exactly the code list `["AD"]` |
| PostalTables.DuplicatePrefixNames | js/postallookup.js:176 | the input "m8w 2A1" finds exactly the names `["Alderwood"]` |
| PostalTables.AlderwoodName | js/postallookup.js:5 | the name table maps `"AD"` to "Alderwood" |
| PostalTables.SjtHasNoName | js/postallookup.js:2-104 | `"SJT"`, listed under two prefixes, has no entry in the name table |
| PostalTables.M4xPrefix | js/postallookup.js:148 | the prefix table maps `"M4X"` to `["SJT"]` |
| PostalTables.NamelessCodeFound | js/postallookup.js:148 | the input "M4X" finds the code list `["SJT"]` |
| PostalTables.NamelessCodeDropped | js/postallookup.js:192 | the input "M4X" finds no names |
| PostalTables.NamelessCodeLinked | js/postallookup.js:206-234 | the search for "M4X" shows one link labelled "SJT" to `branch.html?branch=SJT` and highlights `["SJT"]` |
| PostalTables.M5vPrefix | js/postallookup.js:158 | the prefix table maps `"M5V"` to `["FO"]` |
| PostalTables.CaseAndSuffixDoNotMatter | js/postallookup.js:189-190 | the lower-case full code "m5v 1a1" finds `["FO"]` |
| PostalTables.NoM7Prefixes | js/postallookup.js:106-185 | no prefix with second character 7 is in the table |
| PostalTables.UnknownPrefixShowsMessage | js/postallookup.js:206-212 | the search for "M7A 0A1" shows the no-branch message |
| PostalTables.ShortInputShowsMessage | js/postallookup.js:206-212 | the search for " M5 " shows the no-branch message: trimmed, it is too short to hold a prefix |
| BranchTables.Clean | js/branch.js:7-9 | each field of a row is present after trimming exactly when it was present before |
| BranchTables.CleanTrimsFields | js/branch.js:7-9 | each present field becomes the value with no whitespace at either end that, with whitespace around it, is the original |
| BranchTables.AddEntry | js/branch.js:11-20 | one row changes only the name of its own code and the list of its own prefix |
| BranchTables.Build | js/branch.js:6-22 | every name in the built table is non-empty; every prefix has one to three characters and a non-empty list without repeats |
| BranchTables.BuildTables | js/branch.js:5-22 | on the file's rows, every name in the table is non-empty and every prefix has one to three characters and a non-empty list without repeats |
| BranchTables.BuildTablesNames | js/branch.js:6-13 | a code is in the name table exactly when some row, once trimmed, has that code and a non-empty name |
| BranchTables.BuildTablesPrefixes | js/branch.js:6-17 | a prefix is in the prefix table exactly when some row, once trimmed, has a non-empty postal code starting with it |
| BranchTables.NameTableIsLastName | js/branch.js:11-13 | a code is in the name table exactly when some row names it, and maps to the name the last such row gives |
| BranchTables.LastNameHasLastEntry | js/branch.js:11-13 | the name found comes from a row naming the code with no later row naming it |
| BranchTables.LastEntryGivesLastName | js/branch.js:11-13 | a row naming the code with no later row naming it gives the name found |
| BranchTables.LastNameAbsent | js/branch.js:11 | no name is found exactly when no row has both a non-empty code and a non-empty name for the code |
| BranchTables.PrefixTableIsDistinctCodes | js/branch.js:15-20 | a prefix is a key exactly when some row is grouped under it, and its list is the de-duplicated codes of those rows in first-occurrence order |
| BranchTables.CodesWithPrefixIsFilterMap | js/branch.js:15-20 | the codes grouped under a prefix are the rows filtered by prefix, then mapped to their codes |
| BranchTables.CodesWithPrefixMembers | js/branch.js:15-20 | a code is grouped under a prefix exactly when a row with that prefix carries it |
| BranchTables.PrefixListMembers | js/branch.js:15-20 | a prefix list holds exactly the codes of the rows with that prefix, an absent code included |
| BranchTables.PrefixKeys | js/branch.js:15-16 | the prefix table's keys are exactly the prefixes of rows with a non-empty postal code |
| BranchTables.AbsentCodeListedOnce | js/branch.js:15-20 | two code-less rows under "M5V" list the absent code once, and "m5v" is a separate key |
| BranchTables.DisplayName | js/branch.js:24-25 | a selected code with a non-empty name shows the name; an unmapped code shows itself; anything other than the selection shown is a name from the table |
| BranchTables.DisplayNameOfRows | js/branch.js:23-25 | on the built table the page shows the last name given to the code, or else the code |
| BranchTables.DisplayNameWithoutSelection | js/branch.js:23-25 | without a `branch` parameter the page shows the name of a branch coded "null", or nothing |
| BranchJoin.RegsOf | js/branch.js:37 | a row is kept exactly when it is a row of the file with the selected code |
| BranchJoin.RegsOfKeepsOrderAndCounts | js/branch.js:37 | the kept registration rows are in file order, each selected row as often as in the file, others never |
| BranchJoin.VisitsOf | js/branch.js:38 | a row is kept exactly when it is a row of the file with the selected code |
| BranchJoin.VisitsOfKeepsOrderAndCounts | js/branch.js:38 | the kept visits rows are in file order, each selected row as often as in the file, others never |
| BranchJoin.FirstSelectedRowDecides | js/branch.js:38-44 | a year's visits are those of the first row in the visits file with the selected code and that year |
| BranchJoin.NoSelectedRowOfYear | js/branch.js:38-44 | without a row with the selected code and that year there are no visits |
| BranchJoin.Paired | js/branch.js:40-45 | one point per selected registration row, in order, with that row's year and count and its year's visits |
| BranchJoin.VisitsInYear | js/branch.js:44 | found visits come from a row of that year |
| BranchJoin.FirstRowOfYearDecides | js/branch.js:44 | the first row of the year decides the visits, whatever later rows say |
| BranchJoin.NoRowOfYear | js/branch.js:44 | without a row of the year there are no visits |
| BranchJoin.Merged | js/branch.js:40-46 | merged is no longer than the selected registration rows; each entry has visits, taken from its year's first visits row, and a selected registration row with its year and count; every selected row whose year has visits appears |
| BranchJoin.MergedKeepsOrder | js/branch.js:40-46 | merged is a subsequence of the paired rows, in registration order |
| BranchJoin.MergedCounts | js/branch.js:40-46 | each paired point with visits appears in merged as often as among the paired points; points without visits never do |
| BranchJoin.SumOf | js/branch.js:78-79 | with no present values the sum is 0; one element sums to its value, or 0 if absent; with no negative values the sum is non-negative |
| BranchJoin.SumOfAppend | js/branch.js:78-79 | the sum over a concatenation is the sum of the sums |
| BranchJoin.SumOfFilterDropsNothing | js/branch.js:46 | dropping elements without a value leaves the sum unchanged |
| BranchJoin.SumOfFilterAtMost | js/branch.js:46 | with no negative values, dropping elements can only lower the sum |
| BranchJoin.TotalVisits | js/branch.js:78 | no years total 0 visits; one year totals its visits, or 0 if absent |
| BranchJoin.TotalRegistrations | js/branch.js:79 | no years total 0 new cards; one year totals its registrations, or 0 if absent |
| BranchJoin.TotalsAppend | js/branch.js:78-79 | both totals over a concatenation are the sums of the totals of the parts |
| BranchJoin.VisitsTotalOverAllYears | js/branch.js:78 | the visits total over merged equals the visits total over all paired registration rows |
| BranchJoin.RegistrationsTotalAtMost | js/branch.js:79 | with no negative counts, the new-cards total is at most the selected branch's registrations over all its rows |
| Circulation.Retain | js/main.js:25 | only 2022 and 2023 records are kept, and every such record is kept |
| Circulation.RetainKeepsShownYears | js/main.js:25 | each 2022 or 2023 record is kept as often as it occurs and in order; all others are dropped |
| Circulation.CardholderTypes | js/main.js:27 | the offered types have no repeats, are exactly the retained records' types, and are ordered by first occurrence |
| Circulation.Select | js/main.js:45 | "All" shows the retained records unchanged; another type shows exactly the retained records of that type |
| Circulation.SelectKeepsOrderAndCounts | js/main.js:45 | a selection is a subsequence of the retained records, keeping each selected record as often as it occurs |
| Circulation.SelectIdempotent | js/main.js:45 | selecting the same type again shows the same records |
| Circulation.OfferedTypesShowRecords | js/main.js:45 | every offered type other than "All" shows at least one record |
| Circulation.RecordShownUnderOwnType | js/main.js:45 | every retained record's type is offered and selecting it shows the record |
| Circulation.UnknownTypeShowsNothing | js/main.js:45 | a type no retained record has shows nothing |

## Left out

- Fetching the CSV files, `Promise.all`, `d3.autoType` and the `+d.Circulation` conversion. These are I/O and number parsing, so rows are taken as already-typed values.
- Branch codes that `d3.autoType` would turn into numbers. The join compares codes as strings.
- The force simulation, the scales and the legend. These are floating-point layout and rendering.
- The Pearson correlation and its text. This is floating-point arithmetic that can produce NaN.
- All DOM and SVG work, the tooltips and `drawScatter`.
- `toLocaleString` formatting of the totals. The totals are modelled as integers.
- `highlightBranches`, which is not defined in these files. It is modelled only as the list of codes it receives.
- Text.UpperAscii: `toUpperCase` is modelled for ASCII letters only. Other characters are left unchanged, whereas full Unicode case mapping can change them or the string's length.
- Text.Trim: the whitespace set is fixed. It holds the characters of the WhiteSpace and LineTerminator productions of ECMA-262, with category Zs as listed in `Text.WhitespaceChars`. A JavaScript engine with a newer Unicode version could differ.
- Text.Take: strings are sequences of Unicode scalar values, not UTF-16 code units. `slice(0, 3)` and `length` differ from JavaScript on characters outside the Basic Multilingual Plane.
- Keys inherited from `Object.prototype`, such as `"constructor"` or `"__proto__"`. JavaScript would find them in both tables; the maps do not.
- Decoding of the `branch` URL parameter. It is taken as the already-decoded string, or `None` when missing.
- The `branchNames` list the click handler computes but never uses (js/postallookup.js:216). `BranchesByPostal` states what it holds.
