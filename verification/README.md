# OpenRouter model explorer: catalog derivation core

A Dafny model of the client-side logic of the OpenRouter model explorer: the
single-page view that lists the model catalog, lets the user filter and sort
it, select up to five models, and compare them side by side with a token-cost
calculator.

The model covers three pure pieces of that view.

- **Selection and view mode** (`selection.dfy`, module `Selection`): the set
  of selected model ids and the `grid` / `compare` mode, written as a reducer
  over the events toggle, clear, "Compare Now", back and logo click. The
  reducer keeps the invariant "at most five ids, and compare mode only with a
  non-empty selection".
- **Catalog pipeline** (`catalog.dfy`, `ordering.dfy`, `sorting.dfy`): the
  conjunctive filter (case-insensitive search on name or id, minimum context
  window, "free only"), the four sort options, and the list of records handed
  to the comparison view. `Array.prototype.sort` must be stable (section
  23.1.3.30 of ECMA-262, 2023 edition). The model therefore sorts with a
  functional insertion sort, and the proofs cover sortedness, permutation
  (multiset equality), stability and idempotence.
- **Per-model derivations** (`card.dfy`, `comparison.dfy`): the card's
  per-million prices, "Free" badge, modality label and badges; the comparison
  view's token parsing, cost estimate and twelve feature rows. Each row maps a
  `Model` to a `Cell`.

Supporting modules:

- `options.dfy`: `Option`, plus `Nullable` for `instruct_type`, which can be
  absent, `null` or a string.
- `types.dfy`: the record shapes `Pricing`, `Architecture`, `TopProvider`,
  `Model` and `SortOption`. Every record has `prompt` and `completion` prices.
  All other price components, `architecture`, `top_provider`,
  `supported_parameters` and `description` are `Option`s, so every consumer
  is total over their absence. `SortOption` has exactly four constructors.
- `text.dfy`: ASCII `toLowerCase`, `includes`, `join`, a character-code
  `localeCompare`, and `parseFloat` / `parseInt` on decimal notation. `None`
  stands for NaN.
- `seqs.dfy`: `Array.prototype.filter` and the order-preserving subsequence
  relation.

Prices are `real`, so all price arithmetic is exact.

The sort comparator follows the code. A price that does not parse makes the
sort key NaN; it is not treated as 0. A NaN comparator result counts as a tie,
as the SortCompare step of ECMA-262 prescribes. Such a comparator is
inconsistent, so the price-order properties are stated only when every
record's prices parse (`Ordering.Ranked`).

## Model

| member | source | states |
|---|---|---|
| Selection.ToggleSelection | App.tsx:45-61 | An unselected id is added while fewer than five are selected, with mode unchanged. At five it is refused with an alert and the state is unchanged. A selected id is removed, and removing the last one leaves compare mode for the grid. A toggle never enters compare mode. |
| Selection.ClearSelection | App.tsx:63-66 | From any state the selection becomes empty and the mode becomes grid. |
| Selection.EnterComparison | App.tsx:209-229 | "Compare Now" keeps the selection. It switches to compare mode exactly when the selection is non-empty, and does nothing on an empty selection. |
| Selection.BackToGrid | App.tsx:151 | The back button (and the logo click at line 129) always yields grid mode and keeps the selection. |
| Selection.Step | App.tsx:45-66 | The only event that raises the alert is a toggle, and that toggle leaves the state unchanged. |
| Selection.StepPreservesValid | App.tsx:45-66 | Every event keeps at most five ids selected and keeps compare mode non-empty. |
| Selection.RunPreservesValid | App.tsx:45-66 | Any run of events from a valid state ends in a valid state. |
| Selection.ReachableIsValid | App.tsx:45-66 | Every state reachable from the initial empty grid state is valid. |
| Selection.ToggleTwice | App.tsx:45-61 | Toggling the same id twice restores the selection, whether the first toggle added, removed or was refused. Compare mode may be left but is never entered. Starting empty ends in grid mode. |
| Selection.EmptyingSelectionLeavesCompare | App.tsx:47-52 | Deselecting the only selected id while comparing gives an empty selection in grid mode. |
| Seqs.Filter | App.tsx:87-91 | `filter` returns only elements of its input that pass the test, and every passing element of the input appears in it. |
| Seqs.FilterMultiplicity | App.tsx:87-91 | Each passing element occurs in the result as often as in the input, and each failing element not at all. |
| Seqs.FilterIsSubsequence | App.tsx:68-92 | A filter's result is an order-preserving subsequence of its input. |
| Seqs.FilterFilter | App.tsx:72-92 | Two successive filters equal one filter by the conjunction of their tests. |
| Text.Lower | App.tsx:73-76 | Lower-casing keeps the length, maps each character separately, and leaves no upper-case ASCII letter. |
| Text.LowerIdempotent | App.tsx:73-76 | Lower-casing an already lower-cased string changes nothing. |
| Text.ContainsIffOccurs | App.tsx:74-77 | `includes` holds exactly when the term occurs at some position of the string. |
| Text.JoinEmptyIff | components/ModelCard.tsx:24 | Joining with '/' gives the empty string exactly for an empty list or a list holding one empty string. |
| Text.LocaleCompareAntisymmetric | App.tsx:107-108 | Swapping the names flips the sign of the comparison, and only equal names compare equal. |
| Text.LocaleCompareTransitive | App.tsx:107-108 | Name order is transitive. |
| Text.ParseFloat | App.tsx:88-89 | `parseFloat` finds a number only when the first non-space character is a digit, a sign or a decimal point. A minus sign gives a value of at most 0, and any other start gives at least 0. |
| Text.ParseInt | components/ComparisonView.tsx:28-29 | `parseInt` finds a number only when the first non-space character is a digit or a sign. A minus sign gives a value of at most 0, and any other start gives at least 0. |
| Text.ParseOutsideDecimal | App.tsx:88-89 | Exponent notation stops at the `e` ("1e-7" reads as 1), "Infinity" reads as NaN, and `parseInt` reads "0x1A" as 0. |
| Text.ParseIntShowNat | components/ComparisonView.tsx:28-29 | `parseInt` reads back any decimal numeral, ignoring what follows the last digit. |
| Text.ParseIntNegative | components/ComparisonView.tsx:28-29 | `parseInt` reads a minus-signed numeral as its negation. |
| Text.ParseFloatShowNat | App.tsx:88-89 | `parseFloat` reads back any whole decimal numeral as the same number. |
| Text.ParseFloatFixedPoint | App.tsx:88-89 | `parseFloat` reads a fixed-point numeral `i.f` as `i` plus the value of the fraction digits. |
| Text.ParseFloatZero | components/ComparisonView.tsx:53-54 | The "0" default of an absent price parses to exactly zero. |
| Catalog.MatchesSearch | App.tsx:72-77 | A record matches the search when the lower-cased term occurs at some position of its lower-cased name or of its lower-cased id. |
| Catalog.MatchesSearchIgnoresCase | App.tsx:73 | Two terms that lower-case alike select the same records, and a term selects the same records as its lower-cased form. |
| Catalog.HasZeroPrices | App.tsx:86-91 | The free-only test holds only when both prices parse to zero, so the record's price sort key is zero. |
| Catalog.Passes | App.tsx:71-92 | With no control active every record passes. Under free-only a passing record's price sort key is zero. |
| Catalog.ApplyFilters | App.tsx:68-92 | The guarded filter steps return only catalog records that pass every active test, keep every catalog record that does, and never lengthen the list. |
| Catalog.ZeroPricedIsFree | App.tsx:86-91 | A record priced "0" / "0" passes the free-only test. |
| Catalog.ApplyFiltersIsConjunction | App.tsx:68-92 | The three guarded filter steps equal one filter by "every active test passes". An empty term disables the search test, a minimum of 0 disables the context test, and the context test is `context_length >= minContext`. |
| Catalog.FilteredModels | App.tsx:68-115 | The grid list holds the same records, with the same multiplicities, as the conjunctive filter of the catalog. |
| Catalog.FilteredModelsMembers | App.tsx:68-92 | A record is in the grid exactly when it is in the catalog and passes every active test. |
| Catalog.FilterStepIsSubsequence | App.tsx:68-92 | Before sorting, the kept records are an order-preserving subsequence of the catalog. |
| Catalog.FilteredModelsOrdered | App.tsx:95-114 | When the comparator is consistent on the kept records, the grid list is sorted and records that tie keep their catalog order. |
| Catalog.ContextSortDescending | App.tsx:105-106 | "Context high to low" gives non-increasing `context_length`. |
| Catalog.ContextSortKeepsTies | App.tsx:95-112 | Under "context high to low", records with equal `context_length` keep their pre-sort order. |
| Catalog.PriceLowHighOrder | App.tsx:97-100 | When every price parses, "price low to high" gives non-decreasing prompt + completion. |
| Catalog.PriceHighLowOrder | App.tsx:101-104 | When every price parses, "price high to low" gives non-increasing prompt + completion. |
| Catalog.NameSortOrder | App.tsx:107-108 | "Name A-Z" gives names in non-decreasing character-code order. |
| Catalog.MinContextAboveAll | App.tsx:81-83 | A positive minimum above every record's context window leaves the grid empty. |
| Catalog.ComparisonModels | App.tsx:118-120 | The comparison list holds exactly the catalog records whose id is selected. It ignores filters and sort, and selected ids missing from the catalog contribute nothing. |
| Catalog.ComparisonModelsInCatalogOrder | App.tsx:118-120 | The comparison list is in catalog order. |
| Catalog.ComparisonModelsBounded | App.tsx:118-120 | With unique catalog ids, there are at most as many comparison columns as selected ids. |
| Ordering.TotalPrice | App.tsx:98-99 | The price sort key is prompt + completion when both parse, and NaN otherwise. |
| Ordering.Comparator | App.tsx:95-111 | The comparator is NaN exactly when a price option meets a record whose prices do not parse. A record compared with itself gives zero. |
| Ordering.BeforeMeaning | App.tsx:95-111 | On ranked records, each option's comparator is negative exactly when the first record has the lower total price, the higher total price, the larger context window, or the earlier name, respectively. |
| Ordering.BeforeAsymmetric | App.tsx:95-111 | The comparator never puts a record before itself, and never puts two records each before the other. |
| Ordering.BeforeTransitive | App.tsx:95-111 | "Must come before" is transitive, NaN included. |
| Ordering.NotBeforeTransitive | App.tsx:95-111 | On ranked records, "need not come after" is transitive, which makes the comparator a strict weak order. |
| Ordering.TiedTransitive | App.tsx:95-111 | On ranked records, ties form an equivalence. |
| Sorting.Insert | App.tsx:95-112 | Insertion adds exactly one copy of the new record and loses nothing. |
| Sorting.Sort | App.tsx:95-112 | The sort returns a new sequence that is a permutation of its input (multiset equality). |
| Sorting.SortSorted | App.tsx:95-112 | When the comparator is consistent on the input, no record in the output is followed by one that must come before it. |
| Sorting.SortStable | App.tsx:95-112 | When the comparator is consistent on the input, for each ranked record the records that tie with it appear in the output in their input order. |
| Sorting.SortOfSorted | App.tsx:95-112 | Sorting an already sorted sequence returns it unchanged. |
| Sorting.SortIdempotent | App.tsx:95-112 | When the comparator is consistent on the input, sorting twice by the same option equals sorting once. |
| Card.PerMillion | components/ModelCard.tsx:16-17 | The card's price is the unit price times 1,000,000, and NaN exactly when the unit price does not parse. |
| Card.IsFreeMatchesFilter | components/ModelCard.tsx:16-20 | The "Free" badge shows exactly for the records the free-only filter keeps. An unparseable price is never free. |
| Card.IsFree | components/ModelCard.tsx:16-20 | The "Free" badge shows exactly when both unit prices parse to zero. |
| Card.ModalityLabel | components/ModelCard.tsx:23-24 | The label is never empty. A non-empty legacy `modality` wins. Otherwise the label is the legacy value, the joined input list, or "text". |
| Card.ModalityLabelFallback | components/ModelCard.tsx:23-24 | Without a legacy modality, the label is the '/'-joined input list. It falls back to "text" exactly when that list is absent, empty or a single empty name. |
| Card.InstructBadge | components/ModelCard.tsx:97-101 | The instruct badge shows `instruct_type` exactly when it is a non-empty string. It is hidden when absent, null or empty. |
| Card.ModeratedBadge | components/ModelCard.tsx:102-106 | The "Moderated" badge shows when `is_moderated` is true. It is hidden when the provider is absent, the flag is absent, or the flag is false. |
| Comparison.TokenCount | components/ComparisonView.tsx:28-29 | A calculator field that does not parse counts as 0. Otherwise the parsed integer is used as is, negative included. |
| Comparison.DefaultTokenCounts | components/ComparisonView.tsx:16-29 | The default fields "10000" and "3000" read as 10000 and 3000 tokens. |
| Comparison.NegativeTokenCount | components/ComparisonView.tsx:28-29 | A negative entry is not clamped to 0. |
| Comparison.Cost | components/ComparisonView.tsx:36-43 | The cost is prompt × input + completion × output when both prices parse. Otherwise it is the "-" placeholder, never a number. |
| Comparison.EstimatedCostCell | components/ComparisonView.tsx:36-43 | The cost cell is a number exactly when both of the model's prices parse, and the "-" placeholder otherwise. |
| Comparison.CostKnownIffPriceRanked | components/ComparisonView.tsx:37-39 | The cost is known exactly when the price sort key is not NaN. |
| Comparison.CostMonotonic | components/ComparisonView.tsx:41 | With non-negative prices, the cost is non-decreasing in both token counts. |
| Comparison.FreeModelCostsNothing | components/ComparisonView.tsx:41 | A model with the "Free" badge costs exactly 0 for any token counts. |
| Comparison.DefaultCostExample | components/ComparisonView.tsx:16-41 | At the default counts, prices of 0.000001 and 0.000002 cost exactly 0.016. |
| Comparison.RenderCell | components/ComparisonView.tsx:45-79 | Context Length shows `Count(context_length)`. Moderation shows a flag that is on exactly when `is_moderated` is true. Supported Params shows the tags of the list, or none when it is absent. The two price rows show the per-million cells of prompt and completion. |
| Comparison.PerMillionCell | components/ComparisonView.tsx:51-52 | The per-million price cells show the card's per-million value, or NaN. |
| Comparison.PriceCellsMatchCard | components/ComparisonView.tsx:51-52 | The table's input and output price cells agree with the card's per-million prices. |
| Comparison.ImagePriceCell | components/ComparisonView.tsx:53 | The image cell shows `image × 1000` exactly when `image` is present and parses to a positive value. Otherwise it shows "Free / NA", including when `image` is absent or unparseable. |
| Comparison.RequestPriceCell | components/ComparisonView.tsx:54 | The request cell shows the parsed value exactly when it is positive, and "-" otherwise. |
| Comparison.ModalityCell | components/ComparisonView.tsx:55-66 | An absent modality list shows "Text". A present list, even an empty one, shows its tags. |
| Comparison.ModalityCellAgainstCard | components/ComparisonView.tsx:55-59 | With no legacy modality and a list that joins to a non-empty string, the table's tags and the card's label both show the list. An empty list gives the card "text" and the table no tags. A legacy modality without a list gives the card that value and the table "Text". |
| Comparison.ThroughputCell | components/ComparisonView.tsx:46-50 | The throughput cell shows the throughput string exactly when it is non-empty, and "-" otherwise. |
| Comparison.InstructCell | components/ComparisonView.tsx:72 | The instruct cell shows the value exactly when the card shows the instruct badge, and "-" otherwise. |
| Comparison.BuildRow | components/ComparisonView.tsx:153-163 | A row has its key and one cell per model. |
| Comparison.BuildView | components/ComparisonView.tsx:19-80 | No models gives the empty state. Otherwise there are exactly twelve rows in fixed order, each with its label and one cell per model. |
| Comparison.ColumnsIndependent | components/ComparisonView.tsx:153-163 | A model's column equals the table built for that model alone, so removing a model drops only its column. |
| Comparison.CellsInModelOrder | components/ComparisonView.tsx:153-163 | Cell `i` of row `k` is row `k`'s rendering of model `i`, in input order. |

## Behaviour of the code worth knowing

- An unparseable price makes the price sort key NaN (App.tsx:98-99), so
  `Ordering.TotalPrice` is `None`. It does not count as 0.
- `parseInt(...) || 0` replaces only NaN, so negative token counts pass
  through to the cost estimate (components/ComparisonView.tsx:28-29,
  `Comparison.NegativeTokenCount`).
- The comparison list filters the unfiltered catalog by selected id
  (App.tsx:118-120), so columns follow catalog order whatever the filters
  and sort.
- The "Compare Now" handler has no guard of its own; the button is rendered
  only when the selection is non-empty (App.tsx:209).
  `Selection.EnterComparison` builds that render condition into the event.

## Left out

- Fetching the catalog (`services/openRouterService.ts`), the loading and
  error state (App.tsx:28-43) and the retry button: network I/O. The catalog
  is a given `seq<Model>`.
- All JSX and CSS rendering, and `useMemo` caching. Derived values are
  functions of their inputs.
- `formatCurrency` and `formatNumber`: `components/ui/utils` is not part of
  this model. A cell carries the number handed to them (`Amount`, `Count`,
  and `NotANumber` for NaN).
- `alert()`: modelled only as the `limitAlert` flag of `Selection.Outcome`.
- `parseFloat` / `parseInt` outside plain decimal notation
  (`Text.ParseOutsideDecimal`). The model reads "1e-7" as 1, where the
  runtime reads 1e-7. It reads "Infinity" as NaN, where the runtime reads
  Infinity. It reads `parseInt("0x1A")` as 0, where the runtime reads 26.
  Non-ASCII white space is not skipped. Numbers are exact reals, so
  IEEE-754 rounding does not appear either.
- `localeCompare` collation: names are ordered by character code.
- `toLowerCase` on non-ASCII letters: only A-Z are lowered.
- The price order when some record's price does not parse: the model sorts
  deterministically (a NaN comparison counts as a tie). ECMA-262 leaves the
  order implementation-defined for such an inconsistent comparator, so
  `Sorting.SortSorted`, `Sorting.SortStable`, `Sorting.SortIdempotent` and
  the price-order lemmas require every price to parse.
- The comparator's `default: return 0` branch: `SortOption` is closed, so it
  cannot be reached.
- The range of the minimum-context slider (0 to 128000, in `components/Filters.tsx`):
  the model accepts any integer minimum, and a minimum of 0 or less disables
  the test, as the code does.
- `per_request_limits` (typed `any`) and non-integer `context_length`
  values: the record keeps integer numbers only.
- The card's `capitalize` styling of the modality label.
