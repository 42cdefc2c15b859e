# H110 motherboard compatibility table — selection engine

This project models the logic of the React component
`src/components/CompatibilityTable.tsx`. The component shows a fixed table
of four H110-chipset motherboards. The user can narrow the table in two ways:

- a free-text search over board names and supported CPU names, case-insensitive;
- a row of manufacturer buttons ("all" plus each manufacturer).

The user can also expand one row at a time to see its CPU and feature list.

The model has four modules:

- `Text` (`text.dfy`): the two string operations the search uses.
  `toLowerCase` becomes `ToLower`, on ASCII letters. `includes` becomes
  `Contains`: an occurrence at some offset.
- `Sequences` (`sequences.dfy`): generic facts used to state the derivations:
  - subsequences, which keep order;
  - duplicate freedom;
  - `Distinct`, the insertion-ordered de-duplication that
    `Array.from(new Set(...))` performs.
- `CompatibilityTable` (`compatibility_table.dfy`):
  - the `Board` record and the constant table;
  - the manufacturer button list;
  - the record filter and its two conditions;
  - the `toggleRow` update;
  - which shown rows have their detail panel open;
  - concrete facts about the fixed table.
- `View` (`view_state.dfy`): the class `ViewState` holds the three `useState`
  cells. Its methods are the handlers that replace them. Its `reads`
  functions recompute the derived rows, as a re-render does.

## Model

| member | source | states |
|---|---|---|
| Text.LowerChar | src/components/CompatibilityTable.tsx:81-82 | lower-casing maps 'A'..'Z' to 'a'..'z', leaves every other character unchanged, and never yields an upper-case letter |
| Text.ToLower | src/components/CompatibilityTable.tsx:81-82 | `toLowerCase()`: the result has the input's length and holds no upper-case letter |
| Text.ToLowerOfLower | src/components/CompatibilityTable.tsx:81-82 | a string without upper-case letters is its own lower-case form |
| Text.ToLowerIdempotent | src/components/CompatibilityTable.tsx:81-82 | lower-casing twice equals lower-casing once |
| Text.Contains | src/components/CompatibilityTable.tsx:81-82 | `includes`: a string includes only needles no longer than itself, and always includes its own prefixes |
| Text.ContainsEmpty | src/components/CompatibilityTable.tsx:81-82 | every string includes the empty string |
| Text.OccursLowered | src/components/CompatibilityTable.tsx:81-82 | an occurrence of a word in a string survives lower-casing both sides, at the same offset |
| Text.LowerCharInverse | src/components/CompatibilityTable.tsx:81-82 | only a lower-case letter and its upper-case partner lower-case to that letter |
| Text.MissingChar | src/components/CompatibilityTable.tsx:81-82 | a lower-case needle character absent, in both cases, from a string means the lower-cased string does not include the needle |
| Sequences.FirstIndex | src/components/CompatibilityTable.tsx:78 | the index returned holds the element and no earlier index does |
| Sequences.FirstIndexOfPrefix | src/components/CompatibilityTable.tsx:78 | appending after a sequence does not move the first occurrence of an element already in it |
| Sequences.Distinct | src/components/CompatibilityTable.tsx:78 | `Array.from(new Set(s))` holds exactly the elements of `s` (both directions), each once |
| Sequences.DistinctSnoc | src/components/CompatibilityTable.tsx:78 | inserting one more element into the set appends it at the end unless it was already there |
| Sequences.DistinctFirstOccurrenceOrder | src/components/CompatibilityTable.tsx:78 | the de-duplicated elements appear in the order of their first occurrence in the input |
| Sequences.DistinctOfNoDuplicates | src/components/CompatibilityTable.tsx:78 | a duplicate-free sequence is its own de-duplication |
| Sequences.DistinctIdempotent | src/components/CompatibilityTable.tsx:78 | de-duplicating twice equals de-duplicating once |
| CompatibilityTable.CompatibilityDataNamesDistinct | src/components/CompatibilityTable.tsx:22-71 | board names in the table are pairwise distinct, and no record's manufacturer is the "all" sentinel |
| CompatibilityTable.ManufacturerColumn | src/components/CompatibilityTable.tsx:78 | `compatibilityData.map(item => item.manufacturer)`: same length, entry i is record i's manufacturer |
| CompatibilityTable.Manufacturers | src/components/CompatibilityTable.tsx:78 | `['all', ...Array.from(new Set(...))]`: the list starts with "all", every record's manufacturer follows it, and nothing after "all" repeats |
| CompatibilityTable.ManufacturersSpec | src/components/CompatibilityTable.tsx:78 | the button list starts with "all"; every record's manufacturer follows it, nothing else does, and each appears once |
| CompatibilityTable.ManufacturersOrder | src/components/CompatibilityTable.tsx:78 | the manufacturers after "all" appear in order of their first use in the table |
| CompatibilityTable.ManufacturersNoDuplicates | src/components/CompatibilityTable.tsx:78 | the whole button list, "all" included, is duplicate-free when no record's manufacturer is "all" |
| CompatibilityTable.ManufacturersIdempotent | src/components/CompatibilityTable.tsx:78 | de-duplicating the derived manufacturers again changes nothing |
| CompatibilityTable.ManufacturersOfDistinctColumn | src/components/CompatibilityTable.tsx:78 | when no manufacturer repeats in the table, the buttons are "all" followed by the manufacturer column as it is |
| CompatibilityTable.ManufacturerColumnOfTable | src/components/CompatibilityTable.tsx:22-71 | the table's manufacturers, in order, are ASUS, MSI, Gigabyte, ASRock |
| CompatibilityTable.FourMakersDistinct | src/components/CompatibilityTable.tsx:22-71 | the four manufacturer names of the table are pairwise different |
| CompatibilityTable.ManufacturersOfTable | src/components/CompatibilityTable.tsx:78 | on the fixed table the buttons are all, ASUS, MSI, Gigabyte, ASRock |
| CompatibilityTable.MatchesSearch | src/components/CompatibilityTable.tsx:81-82 | the search condition: the empty term matches every record |
| CompatibilityTable.MatchesManufacturer | src/components/CompatibilityTable.tsx:83 | the manufacturer condition passes every record under "all", and passes a record under its own manufacturer |
| CompatibilityTable.Shown | src/components/CompatibilityTable.tsx:81-84 | under "all" the search condition alone decides; an empty term with a record's own manufacturer shows the record |
| CompatibilityTable.Filter | src/components/CompatibilityTable.tsx:80-85 | the filter never returns more records than it was given |
| CompatibilityTable.FilterMembership | src/components/CompatibilityTable.tsx:80-85 | a record is in the result if and only if it is in the table and passes both the search condition and the manufacturer condition |
| CompatibilityTable.FilterMultiset | src/components/CompatibilityTable.tsx:80-85 | each record occurs in the result as often as in the input when it passes both conditions, and not at all otherwise |
| CompatibilityTable.FilterIsSubsequence | src/components/CompatibilityTable.tsx:80-85 | the result is a subsequence of the table: nothing reordered, nothing invented |
| CompatibilityTable.FilterKeepsAllIff | src/components/CompatibilityTable.tsx:80-85 | the filter returns its input unchanged if and only if every record passes |
| CompatibilityTable.FilterEmptyAll | src/components/CompatibilityTable.tsx:81-83 | an empty term with "all" returns every record, unchanged and in order |
| CompatibilityTable.FilterCaseInsensitive | src/components/CompatibilityTable.tsx:81-82 | two terms with the same lower-case form select identical results |
| CompatibilityTable.FilterIgnoresTermCase | src/components/CompatibilityTable.tsx:81-82 | a term and its lower-case form select identical results |
| CompatibilityTable.FilterIdempotent | src/components/CompatibilityTable.tsx:80-85 | filtering the result again with the same inputs returns it unchanged |
| CompatibilityTable.FilterUnknownManufacturer | src/components/CompatibilityTable.tsx:83-85 | a selected manufacturer other than "all" that no record carries yields the empty result |
| CompatibilityTable.FilterUnknownTerm | src/components/CompatibilityTable.tsx:81-85 | a term that no record matches yields the empty result, whatever the manufacturer |
| CompatibilityTable.ManufacturerButtonsSelectSomething | src/components/CompatibilityTable.tsx:78-85 | under an empty search, every button of a non-empty table selects at least one record |
| CompatibilityTable.FilterNamesDistinct | src/components/CompatibilityTable.tsx:80-85 | filtering keeps board names distinct, so the `key` of each shown row's inner `TableRow` is unique |
| CompatibilityTable.FilterStep | src/components/CompatibilityTable.tsx:80-85 | the filter decides the first record, then filters the rest |
| CompatibilityTable.SearchHitsCpu | src/components/CompatibilityTable.tsx:82 | a term spelled out in one of a board's CPU names matches the board |
| CompatibilityTable.SearchHitsName | src/components/CompatibilityTable.tsx:81 | a term spelled out in a board's name matches the board |
| CompatibilityTable.SearchMisses | src/components/CompatibilityTable.tsx:81-82 | a lower-case term that neither the lower-cased name nor any lower-cased CPU name includes does not match |
| CompatibilityTable.AsrockCpuMissesI5_6400 | src/components/CompatibilityTable.tsx:64 | no CPU name of the ASRock board includes "i5-6400" |
| CompatibilityTable.AsrockMissesI5_6400 | src/components/CompatibilityTable.tsx:60-64 | the ASRock board does not match "i5-6400" |
| CompatibilityTable.I5_6400Matches | src/components/CompatibilityTable.tsx:81-82 | a board whose second CPU is the Core i5-6400 matches "i5-6400" |
| CompatibilityTable.FilterI5_6400 | src/components/CompatibilityTable.tsx:22-85 | "i5-6400" with "all" yields exactly ASUS H110M-K, MSI H110M PRO-VD and Gigabyte GA-H110M-S2H, in that order |
| CompatibilityTable.FilterMsi | src/components/CompatibilityTable.tsx:22-85 | an empty term with "MSI" yields exactly the MSI board |
| CompatibilityTable.FilterLowerCaseManufacturer | src/components/CompatibilityTable.tsx:83 | the manufacturer match is case-sensitive: "msi" yields nothing for any term |
| CompatibilityTable.FilterAsusEitherCase | src/components/CompatibilityTable.tsx:81-82 | "ASUS" and "asus" yield the same rows |
| CompatibilityTable.NamesLackZ | src/components/CompatibilityTable.tsx:22-71 | no board name holds 'z' or 'Z' |
| CompatibilityTable.CpusLackZ | src/components/CompatibilityTable.tsx:22-71 | no CPU name holds 'z' or 'Z' |
| CompatibilityTable.NameLacksZ | src/components/CompatibilityTable.tsx:22-71 | every record's board name lacks 'z' and 'Z' |
| CompatibilityTable.CpuLacksZ | src/components/CompatibilityTable.tsx:22-71 | every supported CPU of every record lacks 'z' and 'Z' |
| CompatibilityTable.NonexistentMisses | src/components/CompatibilityTable.tsx:81-82 | "zzz-nonexistent" matches no record of the table |
| CompatibilityTable.FilterNonexistent | src/components/CompatibilityTable.tsx:80-85 | "zzz-nonexistent" yields no rows, whatever the manufacturer |
| CompatibilityTable.Toggle | src/components/CompatibilityTable.tsx:87-89 | `toggleRow` always changes the expanded row; it leaves nothing expanded exactly when the toggled row was expanded, and otherwise the toggled row |
| CompatibilityTable.ToggleTwice | src/components/CompatibilityTable.tsx:87-89 | from nothing expanded, or from the same row expanded, toggling a row twice restores the prior value |
| CompatibilityTable.ToggleTwiceFromOther | src/components/CompatibilityTable.tsx:87-89 | from another row expanded, toggling a row twice leaves nothing expanded |
| CompatibilityTable.ToggleOther | src/components/CompatibilityTable.tsx:87-89 | toggling k1 and then a different k2 leaves k2 expanded |
| CompatibilityTable.ExpandedRows | src/components/CompatibilityTable.tsx:180 | a shown row has its detail panel open if and only if its name is the expanded row |
| CompatibilityTable.ExpandedRowsAbsent | src/components/CompatibilityTable.tsx:180 | when no shown row carries the expanded name, no detail panel is open |
| CompatibilityTable.AtMostOneExpanded | src/components/CompatibilityTable.tsx:156-180 | with distinct board names, at most one detail panel is open |
| CompatibilityTable.ExpandedRowsOfShown | src/components/CompatibilityTable.tsx:156-180 | expanding a shown row opens that row's panel and no other |
| View.ViewState.constructor | src/components/CompatibilityTable.tsx:74-76 | initial state: empty search, "all", no row expanded |
| View.ViewState.FilteredData | src/components/CompatibilityTable.tsx:80-85 | the shown rows are a subsequence of the table, hold exactly the records passing both conditions for the current state, and have distinct names |
| View.ViewState.DetailRows | src/components/CompatibilityTable.tsx:180 | at most one row shows details: exactly a shown row whose name is the expanded row |
| View.ViewState.SetSearchTerm | src/components/CompatibilityTable.tsx:112 | the search box replaces the term; manufacturer and expanded row are unchanged |
| View.ViewState.SetSelectedManufacturer | src/components/CompatibilityTable.tsx:121 | a manufacturer button replaces the selection; term and expanded row are unchanged |
| View.ViewState.ToggleRow | src/components/CompatibilityTable.tsx:87-89 | the new expanded row is `Toggle` of the old one and the other two fields are unchanged; collapsing closes every panel; expanding a shown row opens exactly that row's panel |

## Left out

- JSX rendering is not modelled. This covers the headings, the table markup, the static chipset information panel, and the "Скрыть"/"Показать" labels and chevron icons. It is presentation only; the decision behind it (`expandedRow === item.motherboard`) is `ExpandedRows`.
- The UI components `Input`, `Button`, `Card`, `Table`, `Badge` and `Icon` are not part of this model. They are imported components and carry no selection logic.
- React's `useState` re-rendering and batching are not modelled. Each handler is a method that replaces its field. The derived values are `reads` functions that are recomputed from the current fields.
- Text.ToLower: lower-cases ASCII letters only. JavaScript's `toLowerCase` also maps non-ASCII letters, such as Cyrillic, and can make a string longer (U+0130 becomes two code units). The table's board and CPU names are ASCII, but the search term is user input. A non-ASCII term that JavaScript lower-cases into ASCII can therefore select rows in the source and none in the model. For example, U+212A (KELVIN SIGN) becomes "k" and selects ASUS H110M-K, Gigabyte GA-H110M-S2H and ASRock H110M-DGS. Case-insensitivity holds for any lower-casing applied to both sides.
- The descriptive fields `socket`, `chipset`, `maxRam`, `ramSlots`, `formFactor`, `price` and `features` are carried as data and never computed on. The optional `price` is an `Option`, and `ramSlots` is a `nat`.
- CompatibilityTable.ToggleTwice: states the round trip only from no row expanded or from the same row expanded. `toggleRow(k)` applied twice from another expanded row leaves nothing expanded, as `ToggleTwiceFromOther` shows, so "applied twice restores the prior value" holds only in those two cases.
