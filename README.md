# Card collection tracker — verified model of the browser core

The application is a single React component that shows a card catalog grouped
by rarity. The user marks cards as owned, flips double-faced cards and filters
the grid. Rules text and mana costs are shown with the `{…}` mana symbols
replaced by icons. This project models the component's logic in Dafny, module
by module:

- `OwnershipMaps`: the two per-card boolean maps (owned, flipped) and the
  functional toggle both use. A missing key reads as false.
- `Cards`: the card and face records. Also the grid image choice
  (`getImageUrl`), the flip button condition and the detail view's images.
- `Sequences`: subsequences, and `Distinct` (the distinct values of a list in
  first-occurrence order, as `Array.from(new Set(xs))` gives).
- `Catalog`: the set and rarity filter options, and the grouping loop that
  builds one bucket per rarity. The loop is an imperative method, proved
  against the functional bucket `CardsOfRarity`.
- `StableSort`: a reference stable sort by a natural-number key. An in-place
  array insertion sort is proved to produce exactly it. A uniqueness lemma
  shows that any stable sort by the same key gives the same sequence.
- `CollectorSort`: the sort key of a bucket. It is the number formed by the
  digits of the collector number, and a number without digits reads as 0.
- `CardView`: the four filters and the owned count. It also builds the
  derived view: for each rarity of the fixed order
  `common, uncommon, rare, mythic, special`, the sorted and filtered bucket,
  dropped when empty. `BuildView` is the imperative walk over that order,
  proved equal to the functional `View`.
- `ManaText`: the mana-text renderer. The global regular expression
  `/\{[^}]+\}|[^\{\}]+/g` is modelled as a scan trace. The trace records the
  matches the engine reports and the characters it steps over. Each part is
  trimmed with JavaScript's whitespace set and looked up in the symbol table.

Each value the component keeps in React state is a Dafny value. Each state
update is a function from the old value to the new one.

## Model

| member | source | states |
|---|---|---|
| OwnershipMaps.Toggle | src/App.tsx:151-161 | The new map has the old keys plus the toggled id. The id maps to the negation of its old truthiness, and every other key keeps its value. |
| OwnershipMaps.ToggleFlipsOnlyItsKey | src/App.tsx:153 | A toggle flips the truthiness of its own key and of no other key. |
| OwnershipMaps.ToggleTwiceRestoresTruthiness | src/App.tsx:153 | Toggling one id twice restores the truthiness of every key. |
| OwnershipMaps.ToggleTwiceKeepsExplicitFalse | src/App.tsx:153 | Toggling an absent id twice leaves an explicit `false`, so the map differs from the original. |
| OwnershipMaps.ToggleTwiceIdentityWhenPresent | src/App.tsx:153 | Toggling a present id twice gives back the very same map. |
| Cards.FaceIndex | src/App.tsx:166 | The face index is 1 exactly when the card is flipped, and 0 otherwise. |
| Cards.GetImageUrl | src/App.tsx:163-170 | The URL is empty, the card's own image, or the image of one of its faces. |
| Cards.CardImageWins | src/App.tsx:164 | A non-empty card-level image is returned whatever the flip state. |
| Cards.FaceSelection | src/App.tsx:165-169 | Without a card image, the flipped card shows face 1 and the unflipped card face 0. A missing face, or no faces, gives the empty string. |
| Cards.FlipSwapsFace | src/App.tsx:159-167 | For a card with the flip button and no card image, a flip swaps the grid image between face 0 and face 1. |
| Cards.FlipIsLocal | src/App.tsx:159-161 | Flipping one card leaves every other card's image unchanged. Flipping twice restores the card's own image. |
| Cards.FlipButtonKeepsPromise | src/App.tsx:273-276 | Pressing the button shows the face its caption offers: face 0 when the caption offers the front, face 1 when it offers the back. |
| Cards.DetailIgnoresFlip | src/App.tsx:299-331 | A `transform` card with faces shows all its faces in the detail view, whatever the flip map. |
| Sequences.Distinct | src/App.tsx:172-173 | The result has no duplicates, holds exactly the values of the input, and is no longer than the input. |
| Sequences.DistinctOrder | src/App.tsx:172-173 | The distinct values are ordered by where each one first occurs. |
| Catalog.SetOptions | src/App.tsx:172 | The set options hold each set name of the catalog exactly once, in first-occurrence order. |
| Catalog.RarityOptions | src/App.tsx:173 | The rarity options hold each rarity of the catalog exactly once, in first-occurrence order. |
| Catalog.CardsOfRarity | src/App.tsx:174-180 | A bucket holds every card of its rarity and nothing else, as a subsequence of the catalog. |
| Catalog.CardsOfRarityIsFilter | src/App.tsx:174-180 | A bucket is the catalog filtered by rarity: every copy of a card of that rarity is kept, and no copy of any other card. |
| Catalog.GroupByRarity | src/App.tsx:174-180 | The loop creates a bucket for exactly the occurring rarities. Each bucket holds the cards of that rarity in catalog order. |
| Catalog.GroupingIsExact | src/App.tsx:174-180 | Each card is in the bucket of its own rarity and in no other bucket. |
| Catalog.NoCardsOfAbsentRarity | src/App.tsx:212-213 | A rarity that no card has gets no cards, so nothing is shown for it. |
| Catalog.BucketSizesSumToCatalog | src/App.tsx:174-180 | The bucket sizes over the distinct rarities add up to the catalog size, so no card is lost or duplicated. |
| CollectorSort.CollectorKey | src/App.tsx:216-217 | The key of a card is 0 exactly when every digit of its collector number is a zero, including when it has no digits. |
| CollectorSort.DecimalZero | src/App.tsx:216-217 | A digit string parses to 0 exactly when all its digits are zeros. |
| CollectorSort.DigitsOf | src/App.tsx:216-217 | The result keeps only digits and is no longer than the input. |
| CollectorSort.DigitsOfAppend | src/App.tsx:216-217 | Removing non-digits distributes over concatenation, and a digit string is kept whole. |
| CollectorSort.KeyIgnoresNonDigits | src/App.tsx:216-217 | A trailing non-digit changes nothing. A collector number without digits gets key 0. |
| CollectorSort.KeyOfLeadingZero | src/App.tsx:216-217 | The collector number `015` has key 15. |
| CollectorSort.KeyOfLetterSuffix | src/App.tsx:216-217 | The collector number `12a` has key 12. |
| CollectorSort.SortBucketProperties | src/App.tsx:215-218 | The sorted bucket is a permutation of the bucket, ascending by collector key. Cards with equal keys keep their relative order. |
| StableSort.SortByKeyProperties | src/App.tsx:215-218 | The reference sort is ordered by key, a permutation of its input, and stable for every key. |
| StableSort.StableSortIsUnique | src/App.tsx:215-218 | Two key-sorted sequences that agree on the order within every key are equal, so every stable sort gives the reference result. |
| StableSort.InsertInPlace | src/App.tsx:215-218 | One insertion pass turns the prefix into the reference insertion of the next element. The rest of the array is unchanged. |
| StableSort.SortInPlace | src/App.tsx:215-218 | The in-place sort leaves the array equal to the reference stable sort of its old contents. |
| CardView.Lower | src/App.tsx:221 | Lower-casing keeps the length and maps each character on its own. |
| CardView.IncludesIffOccurs | src/App.tsx:221 | `includes` holds exactly when the needle occurs at some position of the haystack. |
| CardView.FilterGroup | src/App.tsx:220-229 | A card is kept exactly when it is in the group and passes all four filters. Every copy of a passing card is kept and no copy of a failing one, and the survivors keep their order. |
| CardView.OwnedCount | src/App.tsx:233 | The owned count is at most the number of cards. It is all of them when every card is owned, and zero when none is. |
| CardView.OwnedCountAdditive | src/App.tsx:233 | The owned count adds up over concatenation. A single card counts 1 exactly when it is owned. |
| CardView.OwnedCountUnderOwnershipFilter | src/App.tsx:222-233 | Under the `owned` filter every shown card counts. Under `missing`, none does. |
| CardView.ShowBucket | src/App.tsx:215-229 | Sorting the bucket in an array and filtering it gives the filtered reference sort of the bucket. |
| CardView.BuildView | src/App.tsx:211-238 | The loop over the rarity order produces exactly the functional view. |
| CardView.SectionOfContents | src/App.tsx:212-231 | A card is in a rarity's section exactly when it is in the catalog, has that rarity and passes the filters. |
| CardView.SectionOfShape | src/App.tsx:231-238 | A section that is shown is headed by its rarity, is non-empty, and has an owned count no larger than its size. |
| CardView.ViewProperties | src/App.tsx:211-245 | Headings follow the rarity order, and every section is non-empty with owned count ≤ size. Every section shown is the section of its own heading, with that rarity's filtered, sorted cards and their owned count. A card is shown exactly when it is in the catalog, its rarity is one of the five, and it passes the filters. |
| CardView.CollectFromSections | src/App.tsx:236-245 | For a section function that heads each section with its own rarity, every section the grid shows is the one that function gives for its heading. |
| CardView.SingleCardView | src/App.tsx:211-238 | A one-card catalog whose card passes gives one section: the card, with count 1 if owned and 0 otherwise. |
| CardView.SearchFindsCloud | src/App.tsx:221 | The search `clo` matches the card named `Cloud` once both are lower-cased. |
| CardView.OwnershipScenario | src/App.tsx:151-157 | Searching `clo` shows `Cloud` under `mythic` with 0 owned. After ticking it, the owned map holds it and the heading counts 1. |
| ManaText.Scan | src/App.tsx:104-105 | The scan trace covers the text: matches and skipped characters concatenate back to it. |
| ManaText.ScanWellFormed | src/App.tsx:104 | Each match is a brace token or a brace-free run. Each skipped character is a brace. |
| ManaText.TokenizePartsWellFormed | src/App.tsx:104-105 | Every part returned by `match` is a brace token or a brace-free run. |
| ManaText.TokenizeLosesOnlySkipped | src/App.tsx:104-105 | Only skipped characters are lost, and each is a stray brace: a `}`, the `{` of `{}`, or a `{` with no `}` after it. The parts concatenate back to the text exactly when nothing is skipped. |
| ManaText.ScanIsEngineTrace | src/App.tsx:104-105 | In every scan, a text run is followed by the end or a brace, and every skipped character is a stray brace. |
| ManaText.ScanOfEngineTrace | src/App.tsx:104-105 | Scanning the text of a well-formed trace gives that trace back exactly when its runs are maximal and it skips only stray braces, so these conditions characterise the scan. |
| ManaText.BraceFreeIsOneRun | src/App.tsx:104-105 | A text without braces is one part, or none when it is empty. |
| ManaText.TokenizeConcat | src/App.tsx:104-105 | Well-formed parts that alternate properly are recovered exactly by scanning their concatenation. |
| ManaText.ManaSymbolKeysAreBraceTokens | src/App.tsx:43-100 | Every symbol-table key is a brace token, and every icon address is non-empty. |
| ManaText.Trim | src/App.tsx:108 | The trimmed part is no longer than the part, holds only characters of it, and neither starts nor ends with whitespace. |
| ManaText.TrimIsSlice | src/App.tsx:108 | The trimmed part is the slice of the part that starts right after its leading whitespace; everything before and after that slice is whitespace, so trimming removes nothing else. |
| ManaText.TrimKeepsBraceToken | src/App.tsx:108 | Trimming leaves a brace token unchanged. |
| ManaText.RenderClassification | src/App.tsx:105-121 | One segment per part. A part becomes an icon exactly when its trimmed form is a table key, and otherwise stays raw text. |
| ManaText.TextRunNeverIcon | src/App.tsx:108-110 | A brace-free run never becomes an icon in a table whose keys are brace tokens. |
| ManaText.BraceTokenClassification | src/App.tsx:108-120 | A brace token becomes an icon exactly when it is a key of the table. |
| ManaText.RawFormOfParts | src/App.tsx:107-121 | The raw texts of the classified segments concatenate back to the parts. |
| ManaText.RenderRoundTrip | src/App.tsx:103-121 | The rendered segments spell the original text exactly when the scan skipped no character. |
| ManaText.RenderEmpty | src/App.tsx:103-105 | A missing text and the empty text render as nothing. |
| ManaText.TokenizeExample | src/App.tsx:104-105 | `{2}{W/P}Foo` splits into `{2}`, `{W/P}` and `Foo`. |
| ManaText.RenderExample | src/App.tsx:103-121 | `{2}{W/P}Foo` renders as two icons followed by the text `Foo`. |
| ManaText.PrototypeNameBecomesIcon | src/App.tsx:108-110 | As written, the text `toString` is rendered as an icon. The intended classification keeps it as text. |

## Left out

- Loading the catalog is not modelled: the paginated fetches, `Promise.all` and the `loading` flag (src/App.tsx:124-149). The catalog is a parameter of every function.
- Persistence is not modelled: `localStorage` reads and writes and JSON (src/App.tsx:125-126, 154). The value written is the map `Toggle` returns.
- Rendering is not modelled: the JSX layout, styles, hover effects, opening and closing the detail view, and `stopPropagation`. The model is the data each element displays.
- CardView.Lower: lower-cases ASCII letters only. JavaScript's `toLowerCase` follows the full Unicode case mapping.
- CollectorSort.DecimalValue: the key is an exact natural number. `parseInt` gives a floating-point number, which loses precision on digit strings longer than 15 digits.
- StableSort.SortInPlace: this insertion sort stands for the engine's `Array.prototype.sort`, whose algorithm is not specified. `StableSortIsUnique` shows that any stable sort by the same key gives the same result.
- The source sorts the bucket object itself in place, so the shared grouping is mutated on each render. The model sorts a fresh copy (`ShowBucket`). Because the sort is stable and the buckets are rebuilt on every render, the result is the same.
- The grouping object and the owned and flipped maps are plain objects, modelled as maps. Reading an inherited name from a plain object also finds `Object.prototype` members, and the maps do not model this. For a card whose rarity is `constructor`, `toString` or `__proto__`, the grouping loop (src/App.tsx:176-179) finds a truthy value, creates no bucket and calls `push` on something that is not an array. That throws, and the whole render fails. `GroupByRarity` does not model this exception path, because the catalog's rarities are never such names. The same lookup in the symbol table is a finding below.
- The owned map is declared as string to boolean. Values other than booleans, which a hand-edited persisted map could hold, are not modelled.
- Toggling ownership twice does not give back the persisted map when the card was absent: it ends holding an explicit `false` (`ToggleTwiceKeepsExplicitFalse`). What is restored is each card's truthiness. One might expect two toggles to restore the stored map; the code does not, and the model follows the code.
- The rarity and set filters keep the string sentinel `"all"`, as the code does, rather than a separate "no filter" case. A rarity or set literally named `all` would therefore be indistinguishable.

## Findings

| source | as written | input that shows it | evidently intended | confidence | as-written member | corrected member |
|---|---|---|---|---|---|---|
| src/App.tsx:108-110 | The part is looked up with `manaSymbols[trimmed]` on a plain object. That read also finds the members inherited from `Object.prototype`, which are functions and therefore truthy. | the card text `toString` (or `constructor`, `valueOf`, …) | Only the table's own symbols become icons. Any other part stays text. | high, not executed | ManaText.PrototypeNameBecomesIcon | ManaText.TextRunNeverIcon |
