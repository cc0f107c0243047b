# EatClub restaurant list state manager, modelled in Dafny

This project models the restaurant list state manager of the EatClub Android app. That is the
`RestaurantListViewModel` class and the state records it publishes (`RestaurantContract`).
The state manager owns four things:

- a list view state: the full list, the shown (filtered) list, a loading flag, the search query,
  the bottom-sheet flag and the sort option;
- a detail view state: the selected restaurant and its deals;
- a one-slot, drop-oldest buffer of one-off actions (snackbar messages);
- the intent operations that update these: fetch, search, sort by name, sort by best deal,
  select a restaurant, open or close settings, show a message.

Modules:

- `Wrappers` holds `Option`.
- `DataModel` holds `Deal` and `Restaurant` as immutable datatypes, with every field of the
  Kotlin data classes.
- `Sorting` is a generic stable insertion sort `SortBy(s, key, le)`. Its lemmas cover
  permutation, sortedness, stability and idempotence. They also cover uniqueness: any sorted
  rearrangement that keeps each group of equal keys in order *is* `SortBy`. So the model
  agrees with Kotlin's stable `sortedBy` / `sortedByDescending` whatever algorithm those use.
- `Text` holds the string library behaviour the code relies on:
  - `isBlank`, over the JVM `Char.isWhitespace` set;
  - `contains(…, ignoreCase = true)`, with ASCII case folding;
  - the order of `String.compareTo`: lexicographic, case-sensitive, a proper prefix first.
    It is proved a total order.
- `Derivations` holds the expressions inside the intents:
  - the best-deal key: the largest discount of a restaurant's deals, or 0 without deals;
  - the three sorts;
  - the search filter.
- `RestaurantContract` holds the view-model's types: `SortOption`, `ListViewState`, `Action`
  and `DetailViewState`, with the defaults the Kotlin data classes declare.
- `ViewModel` has two parts:
  - Pure state transformers. `AfterFetchStarted`, `AfterFetchSucceeded`, `AfterFetchFailed`,
    `AfterFilter` and `AfterSettingsClicked` are each one lambda passed to
    `MutableStateFlow.update`. `AfterSearchQueryChanged`, `AfterSortByName` and
    `AfterSortByBestDeals` are one such lambda followed by the separate update that
    `filterRestaurants()` makes. They describe the state after both updates, not the state
    published between them.
  - The class `RestaurantListViewModel` has fields `viewState`, `detailViewState` and
    `pendingAction`. Each method changes only the fields it names and ties the new state to
    the transformer applied to the old one. The composed intents make their two updates as
    two steps, as the Kotlin code does. The class invariant `Valid()` has two halves:
    - the shown list is an order-preserving sub-list of the full list;
    - the mailbox invariant, over a ghost history of emitted and collected actions: each action
      is collected at most once and in order, and the slot holds only the latest uncollected
      emission.
- `Scenarios` restates the unit tests of `RestaurantListViewModelTest.kt` on the model:
  - the fetch orders B before A;
  - "t A" finds A and "Mex" finds B;
  - sorting by name orders A before B;
  - after a fetch, sorting best deals 10, 30, 20 orders them 30, 20, 10;
  - a selection shows the 20 deal first;
  - the settings toggle.

  It also states four situations that have no unit test:
  - a lower-case "mex" finds B;
  - the failure path of the fetch, which clears the loading flag and leaves one
    "Something went wrong" message to collect;
  - the drop-oldest buffer, where a second message replaces an uncollected first one;
  - two restaurants with the same name, which don't return to their first order (see below).

Two behaviours of the code are stated as the code has them:

- **A successful fetch does not apply the current query.** It sets both lists to the sorted
  fetched list. `FetchSucceededConsistency` proves the shown list equals the search applied to
  the full list exactly when the query is blank or every fetched restaurant matches it.
  Every other list intent ends in `filterRestaurants()`, and their contracts show the search
  is applied.
- **Sorting by name, then by best deal, then by name again does not always restore the first
  name order.** The sorts are stable, so restaurants that share a name keep the order the
  best-deal sort gave them (`NameSortKeepsOrderOfEqualNames`). With distinct names the first
  order does come back (`NameBestDealsNameRoundTrip`).

## Model

| member | source | states |
|---|---|---|
| `Derivations.MaxDiscount` | app/src/main/java/com/eatclubapplication/presentation/viewmodel/RestaurantListViewModel.kt:105 | 0 for no deals; otherwise a discount of some deal that no deal exceeds |
| `Derivations.BestDeal` | app/src/main/java/com/eatclubapplication/presentation/viewmodel/RestaurantListViewModel.kt:53 | the best-deal key is 0 without deals; otherwise it is attained by one of the restaurant's deals and bounds all of them |
| `Derivations.SortedByBestDeals` | app/src/main/java/com/eatclubapplication/presentation/viewmodel/RestaurantListViewModel.kt:105 | a permutation, non-increasing by best deal, each group of equal best deals in its earlier order |
| `Derivations.SortedByName` | app/src/main/java/com/eatclubapplication/presentation/viewmodel/RestaurantListViewModel.kt:97 | a permutation, non-decreasing by name under `String.compareTo`, equal names in their earlier order |
| `Derivations.SortedByDiscount` | app/src/main/java/com/eatclubapplication/presentation/viewmodel/RestaurantListViewModel.kt:114 | a permutation of the deals, non-increasing by discount, equal discounts in their original order |
| `Derivations.SortedByBestDealsIdempotent` | app/src/main/java/com/eatclubapplication/presentation/viewmodel/RestaurantListViewModel.kt:105 | sorting by best deal twice equals sorting once |
| `Derivations.SortedByNameIdempotent` | app/src/main/java/com/eatclubapplication/presentation/viewmodel/RestaurantListViewModel.kt:97 | sorting by name twice equals sorting once |
| `Derivations.SortedByBestDealsUnique` | app/src/main/java/com/eatclubapplication/presentation/viewmodel/RestaurantListViewModel.kt:105 | every non-increasing rearrangement that keeps equal best deals in order is the model's result |
| `Derivations.SortedByNameUnique` | app/src/main/java/com/eatclubapplication/presentation/viewmodel/RestaurantListViewModel.kt:97 | every stable name-ordered rearrangement is the model's result |
| `Derivations.SortedByDiscountUnique` | app/src/main/java/com/eatclubapplication/presentation/viewmodel/RestaurantListViewModel.kt:114 | every stable descending-discount rearrangement of the deals is the model's result |
| `Derivations.SortedByNameIgnoresPriorOrder` | app/src/main/java/com/eatclubapplication/presentation/viewmodel/RestaurantListViewModel.kt:97 | with distinct names, every permutation of a list sorts by name to the same sequence |
| `Derivations.NameBestDealsNameRoundTrip` | app/src/main/java/com/eatclubapplication/presentation/viewmodel/RestaurantListViewModel.kt:95-109 | with distinct names, name sort then best-deal sort then name sort gives the first name order |
| `Derivations.KeepMatching` | app/src/main/java/com/eatclubapplication/presentation/viewmodel/RestaurantListViewModel.kt:84-89 | an order-preserving sub-list holding every restaurant whose name or some cuisine contains the query, and only those |
| `Derivations.KeepMatchingCount` | app/src/main/java/com/eatclubapplication/presentation/viewmodel/RestaurantListViewModel.kt:84-89 | a matching restaurant is kept as many times as it occurs; a non-matching one never |
| `Derivations.KeepMatchingAll` | app/src/main/java/com/eatclubapplication/presentation/viewmodel/RestaurantListViewModel.kt:84-89 | the filter returns the whole list exactly when every restaurant matches |
| `Derivations.Filter` | app/src/main/java/com/eatclubapplication/presentation/viewmodel/RestaurantListViewModel.kt:81-90 | the search result is an in-order sub-list; a blank query keeps the whole list; otherwise exactly the listed restaurants that match are kept |
| `Derivations.Matches` | app/src/main/java/com/eatclubapplication/presentation/viewmodel/RestaurantListViewModel.kt:84-89 | the filter's test: the name, or some cuisine, contains the query, ignoring case; every restaurant matches the empty query, and a match needs the query to fit in the name or in some cuisine |
| `Derivations.MatchesIgnoresCaseOfQuery` | app/src/main/java/com/eatclubapplication/presentation/viewmodel/RestaurantListViewModel.kt:85-87 | whether a restaurant matches does not depend on the letter case of the query |
| `Derivations.FilterSpec` | app/src/main/java/com/eatclubapplication/presentation/viewmodel/RestaurantListViewModel.kt:79-93 | the search result is a sub-list in order; a blank query keeps everything; otherwise each restaurant is kept, with multiplicity, iff it matches |
| `Derivations.FilterKeepsAll` | app/src/main/java/com/eatclubapplication/presentation/viewmodel/RestaurantListViewModel.kt:81-89 | the search drops nothing iff the query is blank or every restaurant matches |
| `Derivations.SubsequenceShorter` | app/src/main/java/com/eatclubapplication/presentation/viewmodel/RestaurantListViewModel.kt:84 | a filtered list is never longer than the list it came from |
| `Sorting.Insert` | app/src/main/java/com/eatclubapplication/presentation/viewmodel/RestaurantListViewModel.kt:97 | inserting adds exactly the one element to the multiset |
| `Sorting.SortBy` | app/src/main/java/com/eatclubapplication/presentation/viewmodel/RestaurantListViewModel.kt:97 | the stable sort is a permutation of its input |
| `Sorting.SortBySorted` | app/src/main/java/com/eatclubapplication/presentation/viewmodel/RestaurantListViewModel.kt:97 | for a total order, the result is ordered by key |
| `Sorting.SortByStable` | app/src/main/java/com/eatclubapplication/presentation/viewmodel/RestaurantListViewModel.kt:97 | the elements of any one key appear in the result in their input order |
| `Sorting.SortByIdempotent` | app/src/main/java/com/eatclubapplication/presentation/viewmodel/RestaurantListViewModel.kt:105 | sorting a sorted result again changes nothing |
| `Sorting.SortByUnique` | app/src/main/java/com/eatclubapplication/presentation/viewmodel/RestaurantListViewModel.kt:105 | a sorted sequence with the same per-key sub-lists as the input equals the stable sort |
| `Sorting.SortByIgnoresOrderWhenKeysDistinct` | app/src/main/java/com/eatclubapplication/presentation/viewmodel/RestaurantListViewModel.kt:97 | with distinct keys, permutations of the same elements sort to the same sequence |
| `Text.IsBlank` | app/src/main/java/com/eatclubapplication/presentation/viewmodel/RestaurantListViewModel.kt:81 | `isBlank()`, checked one character at a time from the front, holds exactly when every character is JVM whitespace, so the empty query is blank |
| `Text.Fold` | app/src/main/java/com/eatclubapplication/presentation/viewmodel/RestaurantListViewModel.kt:85 | a folded character is never an upper-case ASCII letter |
| `Text.FoldSameIff` | app/src/main/java/com/eatclubapplication/presentation/viewmodel/RestaurantListViewModel.kt:85-87 | two characters fold alike exactly when they are equal or are the two cases of one ASCII letter |
| `Text.ContainsIgnoreCase` | app/src/main/java/com/eatclubapplication/presentation/viewmodel/RestaurantListViewModel.kt:85-87 | `contains(q, ignoreCase = true)`: the empty query is contained in every string, and a query longer than the text never is |
| `Text.ContainsIgnoreCaseIff` | app/src/main/java/com/eatclubapplication/presentation/viewmodel/RestaurantListViewModel.kt:85-87 | `contains(q, ignoreCase = true)` holds exactly when `q` occurs, ignoring case, at some index |
| `Text.ContainsIgnoresCaseOfQuery` | app/src/main/java/com/eatclubapplication/presentation/viewmodel/RestaurantListViewModel.kt:85-87 | the case of the query's letters does not change the search |
| `Text.MissingPairNotContained` | app/src/main/java/com/eatclubapplication/presentation/viewmodel/RestaurantListViewModel.kt:85-87 | a query with two adjacent characters that never stand side by side in the text is not contained in it |
| `Text.LexLe` | app/src/main/java/com/eatclubapplication/presentation/viewmodel/RestaurantListViewModel.kt:97 | `a.compareTo(b) <= 0`: a prefix of `b`, including `b` itself, is ordered first |
| `Text.LexLeIff` | app/src/main/java/com/eatclubapplication/presentation/viewmodel/RestaurantListViewModel.kt:97 | `a.compareTo(b) <= 0` holds exactly when `a` is a prefix of `b` or the first differing character is smaller in `a` |
| `Text.LexLeCommonPrefix` | app/src/main/java/com/eatclubapplication/presentation/viewmodel/RestaurantListViewModel.kt:97 | a shared prefix does not change the name order |
| `Text.LexLeTotalOrder` | app/src/main/java/com/eatclubapplication/presentation/viewmodel/RestaurantListViewModel.kt:97 | the name order is reflexive, antisymmetric, transitive and total |
| `RestaurantContract.DefaultListViewState` | app/src/main/java/com/eatclubapplication/presentation/viewmodel/RestaurantContract.kt:7-14 | empty lists, not loading, empty query, sheet closed, sorted by best deal |
| `RestaurantContract.DefaultDetailViewState` | app/src/main/java/com/eatclubapplication/presentation/viewmodel/RestaurantContract.kt:23-26 | no restaurant, no deals |
| `ViewModel.DefaultIsFilterConsistent` | app/src/main/java/com/eatclubapplication/presentation/viewmodel/RestaurantContract.kt:8-11 | the default state shows the search applied to the full list |
| `ViewModel.AfterFetchStarted` | app/src/main/java/com/eatclubapplication/presentation/viewmodel/RestaurantListViewModel.kt:49-51 | only the loading flag changes, to true |
| `ViewModel.AfterFetchSucceeded` | app/src/main/java/com/eatclubapplication/presentation/viewmodel/RestaurantListViewModel.kt:53-61 | both lists become the fetched restaurants in best-deal order, equal best deals in their fetched order; not loading; sorted by best deal; query and sheet kept |
| `ViewModel.AfterFetchFailed` | app/src/main/java/com/eatclubapplication/presentation/viewmodel/RestaurantListViewModel.kt:65-67 | only the loading flag changes, to false |
| `ViewModel.AfterFilter` | app/src/main/java/com/eatclubapplication/presentation/viewmodel/RestaurantListViewModel.kt:79-93 | only the shown list changes, and afterwards it is the search applied to the full list |
| `ViewModel.AfterSearchQueryChanged` | app/src/main/java/com/eatclubapplication/presentation/viewmodel/RestaurantListViewModel.kt:72-77 | the query is stored; list, sort option, loading and sheet flags unchanged; the shown list is the new search |
| `ViewModel.AfterSortByName` | app/src/main/java/com/eatclubapplication/presentation/viewmodel/RestaurantListViewModel.kt:95-101 | the full list is permuted into name order, equal names in their earlier order; sort option Name; other flags kept; the shown list is re-searched |
| `ViewModel.AfterSortByBestDeals` | app/src/main/java/com/eatclubapplication/presentation/viewmodel/RestaurantListViewModel.kt:103-109 | the full list is permuted into best-deal order, equal best deals in their earlier order; sort option BestDeals; other flags kept; the shown list is re-searched |
| `ViewModel.AfterSettingsClicked` | app/src/main/java/com/eatclubapplication/presentation/viewmodel/RestaurantListViewModel.kt:118-122 | the sheet flag becomes the argument and no other field changes |
| `ViewModel.DetailFor` | app/src/main/java/com/eatclubapplication/presentation/viewmodel/RestaurantListViewModel.kt:111-116 | the selected restaurant, and its deals stably sorted by descending discount |
| `ViewModel.SearchQueryChangedIdempotent` | app/src/main/java/com/eatclubapplication/presentation/viewmodel/RestaurantListViewModel.kt:72-77 | changing the query twice to the same text equals changing it once |
| `ViewModel.SortByNameIdempotent` | app/src/main/java/com/eatclubapplication/presentation/viewmodel/RestaurantListViewModel.kt:95-101 | sorting by name twice gives the state of sorting once |
| `ViewModel.SortByBestDealsIdempotent` | app/src/main/java/com/eatclubapplication/presentation/viewmodel/RestaurantListViewModel.kt:103-109 | sorting by best deal twice gives the state of sorting once |
| `ViewModel.FetchSucceededConsistency` | app/src/main/java/com/eatclubapplication/presentation/viewmodel/RestaurantListViewModel.kt:54-61 | after a fetch the shown list is the search result iff the query is blank or every fetched restaurant matches it |
| `ViewModel.RestaurantListViewModel.constructor` | app/src/main/java/com/eatclubapplication/presentation/viewmodel/RestaurantListViewModel.kt:30-40 | a new state manager starts from the default list and detail states with an empty mailbox |
| `ViewModel.RestaurantListViewModel.BeginFetch` | app/src/main/java/com/eatclubapplication/presentation/viewmodel/RestaurantListViewModel.kt:46-51 | the list state is `AfterFetchStarted` of the old one; invariant kept |
| `ViewModel.RestaurantListViewModel.CompleteFetch` | app/src/main/java/com/eatclubapplication/presentation/viewmodel/RestaurantListViewModel.kt:52-68 | on success the list state is `AfterFetchSucceeded` and the mailbox is untouched; on failure it is `AfterFetchFailed` and "Something went wrong" is emitted |
| `ViewModel.RestaurantListViewModel.OnSearchQueryChanged` | app/src/main/java/com/eatclubapplication/presentation/viewmodel/RestaurantListViewModel.kt:72-77 | the list state is `AfterSearchQueryChanged` of the old one; invariant kept |
| `ViewModel.RestaurantListViewModel.FilterRestaurants` | app/src/main/java/com/eatclubapplication/presentation/viewmodel/RestaurantListViewModel.kt:79-93 | the list state is `AfterFilter` of the old one, and the shown list is again a sub-list of the full list |
| `ViewModel.RestaurantListViewModel.SortByName` | app/src/main/java/com/eatclubapplication/presentation/viewmodel/RestaurantListViewModel.kt:95-101 | the list state is `AfterSortByName` of the old one; invariant kept |
| `ViewModel.RestaurantListViewModel.SortByBestDeals` | app/src/main/java/com/eatclubapplication/presentation/viewmodel/RestaurantListViewModel.kt:103-109 | the list state is `AfterSortByBestDeals` of the old one; invariant kept |
| `ViewModel.RestaurantListViewModel.OnRestaurantSelected` | app/src/main/java/com/eatclubapplication/presentation/viewmodel/RestaurantListViewModel.kt:111-116 | the detail state is replaced by `DetailFor(restaurant)`; the list state is not touched |
| `ViewModel.RestaurantListViewModel.OnSettingsClicked` | app/src/main/java/com/eatclubapplication/presentation/viewmodel/RestaurantListViewModel.kt:118-122 | the list state is `AfterSettingsClicked` of the old one |
| `ViewModel.RestaurantListViewModel.ShowSnackBarMessage` | app/src/main/java/com/eatclubapplication/presentation/viewmodel/RestaurantListViewModel.kt:124-128 | the message is appended to the emitted history and replaces whatever the one slot held (drop-oldest) |
| `ViewModel.RestaurantListViewModel.CollectAction` | app/src/main/java/com/eatclubapplication/presentation/viewmodel/RestaurantListViewModel.kt:36-40 | the subscriber gets the buffered action, which is the latest emitted, and the slot is then empty |
| `Scenarios.FetchSortsByBestDeals` | app/src/test/java/com/eatclubapplication/presentation/viewmodel/RestaurantListViewModelTest.kt:41-76 | fetching A (10) and B (20) gives B first, not loading, sorted by best deal |
| `Scenarios.SearchFiltersByName` | app/src/test/java/com/eatclubapplication/presentation/viewmodel/RestaurantListViewModelTest.kt:79-112 | searching "t A" shows exactly restaurant A |
| `Scenarios.SearchFiltersByCuisine` | app/src/test/java/com/eatclubapplication/presentation/viewmodel/RestaurantListViewModelTest.kt:115-148 | searching "Mex" shows exactly restaurant B |
| `Scenarios.SearchIgnoresCase` | app/src/main/java/com/eatclubapplication/presentation/viewmodel/RestaurantListViewModel.kt:85-87 | searching "mex" shows exactly restaurant B, whose cuisine is "Mexican" |
| `Scenarios.SortByNameOrdersByName` | app/src/test/java/com/eatclubapplication/presentation/viewmodel/RestaurantListViewModelTest.kt:151-185 | sorting B, A by name gives A, B and sort option Name |
| `Scenarios.SortByBestDealsOrdersByHighestDiscount` | app/src/test/java/com/eatclubapplication/presentation/viewmodel/RestaurantListViewModelTest.kt:188-234 | after fetching best deals 10, 30, 20, sorting by best deal gives them in the order 30, 20, 10, with sort option BestDeals |
| `Scenarios.SelectionSortsDeals` | app/src/test/java/com/eatclubapplication/presentation/viewmodel/RestaurantListViewModelTest.kt:237-261 | selecting a restaurant with deals 10 and 20 shows it with the 20 deal first |
| `Scenarios.FetchFailureShowsOneMessage` | app/src/main/java/com/eatclubapplication/presentation/viewmodel/RestaurantListViewModel.kt:62-67 | after a failed fetch: not loading, both lists empty; the first collection yields "Something went wrong" and the second yields nothing |
| `Scenarios.SettingsToggle` | app/src/test/java/com/eatclubapplication/presentation/viewmodel/RestaurantListViewModelTest.kt:264-274 | after a fetch the sheet is closed; opening it changes only the flag; closing it restores the state before |
| `Scenarios.NewMessageDropsOldest` | app/src/main/java/com/eatclubapplication/presentation/viewmodel/RestaurantListViewModel.kt:36-39 | of two messages emitted before any collection only the second is collected, and the slot is then empty |
| `Scenarios.NameSortKeepsOrderOfEqualNames` | app/src/main/java/com/eatclubapplication/presentation/viewmodel/RestaurantListViewModel.kt:95-109 | two restaurants named alike come out of name, best-deal, name sorting in best-deal order, not in the first name order |

## Left out

- Coroutines and flows. `viewModelScope.launch`, `StateFlow` broadcasting and the
  compare-and-set loop of `update` are left out. Each `update` is one sequential step of the class.
  The separate coroutine that emits the snackbar is modelled as an immediate emission.
- The fetch is not started by the constructor. The caller drives it with `BeginFetch` and then
  `CompleteFetch(result)`. The repository call (`RestaurantRepository`, Retrofit and JSON
  decoding) becomes the `FetchResult` parameter. Any exception becomes `FetchFailed`.
- `Log.d` logging on failure.
- Subscription to `actions`. The model assumes a subscriber is present, so every emission is
  buffered. A `MutableSharedFlow` with no subscriber drops emissions, and the model does not
  capture that.
- `Text.Fold`: case folding is ASCII only. Kotlin's `ignoreCase` also folds non-ASCII letters,
  and the model does not capture that.
- `Text.LexLe` compares Dafny characters (Unicode scalar values). `String.compareTo` compares
  UTF-16 code units, so the two orders can differ for characters outside the Basic Multilingual
  Plane.
- Kotlin `Int` discounts are unbounded `int`s. No arithmetic is done on them, only comparison,
  so no overflow can arise.
- Merely stored fields of `Restaurant` and `Deal`. Addresses, images, opening times,
  quantities and flags are kept but never read by the logic.
- The Compose UI, navigation, dependency injection and `getRestaurantById`. These are not
  part of this model.
