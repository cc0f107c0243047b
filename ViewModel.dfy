/**
 * The restaurant list state manager (`RestaurantListViewModel`).
 *
 * `AfterFetchStarted`, `AfterFetchSucceeded`, `AfterFetchFailed`, `AfterFilter`
 * and `AfterSettingsClicked` are each one lambda the Kotlin code passes to
 * `MutableStateFlow.update`. `AfterSearchQueryChanged`, `AfterSortByName` and
 * `AfterSortByBestDeals` are one such lambda followed by the separate update of
 * `filterRestaurants()`; the state published between the two is not described
 * by them. The class holds the three pieces of mutable state and performs each
 * update as its own step, as the Kotlin code does. The asynchronous
 * fetch started by `init` is split into `BeginFetch` and `CompleteFetch`,
 * which the caller drives with the repository's answer.
 */
module ViewModel {
  import opened Wrappers
  import opened DataModel
  import opened Derivations
  import opened Text
  import opened RestaurantContract

  /** What `repository.getRestaurants()` produced: the decoded list, or an exception. */
  datatype FetchResult = Fetched(restaurantList: seq<Restaurant>) | FetchFailed

  /** The shown list is the search applied to the full list. */
  ghost predicate FilterConsistent(s: ListViewState) {
    s.filteredRestaurants == Filter(s.restaurants, s.searchQuery)
  }

  /** The default state already shows the search applied to the (empty) full list. */
  lemma DefaultIsFilterConsistent()
    ensures FilterConsistent(DefaultListViewState())
  {
    assert IsBlank(DefaultListViewState().searchQuery);
  }

  /** The text of the snackbar shown when the fetch fails. */
  const FetchErrorMessage: string := "Something went wrong"

  /** The update made before the repository is called: the loading flag is raised. */
  function AfterFetchStarted(s: ListViewState): (t: ListViewState)
    ensures t.isLoading
    ensures t == s.(isLoading := t.isLoading)
  {
    s.(isLoading := true)
  }

  /**
   * The update after a successful fetch: both lists become the fetched list sorted
   * by best deal; the current query is kept but not applied.
   */
  function AfterFetchSucceeded(s: ListViewState, fetched: seq<Restaurant>): (t: ListViewState)
    ensures multiset(t.restaurants) == multiset(fetched)
    ensures forall i, j :: 0 <= i < j < |t.restaurants| ==> BestDeal(t.restaurants[i]) >= BestDeal(t.restaurants[j])
    ensures Sorting.SameKeyClasses(t.restaurants, fetched, BestDeal)
    ensures t.filteredRestaurants == t.restaurants
    ensures !t.isLoading && t.sortOption == BestDeals
    ensures t.searchQuery == s.searchQuery && t.showBottomSheet == s.showBottomSheet
  {
    var sorted := SortedByBestDeals(fetched);
    s.(restaurants := sorted, filteredRestaurants := sorted, isLoading := false, sortOption := BestDeals)
  }

  /** The update after a failed fetch: only the loading flag changes. */
  function AfterFetchFailed(s: ListViewState): (t: ListViewState)
    ensures !t.isLoading
    ensures t == s.(isLoading := t.isLoading)
  {
    s.(isLoading := false)
  }

  /** `filterRestaurants()`: the shown list is recomputed from the full list and the query. */
  function AfterFilter(s: ListViewState): (t: ListViewState)
    ensures FilterConsistent(t)
    ensures t == s.(filteredRestaurants := t.filteredRestaurants)
  {
    s.(filteredRestaurants := Filter(s.restaurants, s.searchQuery))
  }

  /** `onSearchQueryChanged(query)`: store the query, then filter. */
  function AfterSearchQueryChanged(s: ListViewState, query: string): (t: ListViewState)
    ensures t.searchQuery == query
    ensures t.restaurants == s.restaurants && t.sortOption == s.sortOption
    ensures t.isLoading == s.isLoading && t.showBottomSheet == s.showBottomSheet
    ensures FilterConsistent(t)
  {
    AfterFilter(s.(searchQuery := query))
  }

  /** `sortByName()`: reorder the full list by name, then filter. */
  function AfterSortByName(s: ListViewState): (t: ListViewState)
    ensures multiset(t.restaurants) == multiset(s.restaurants)
    ensures forall i, j :: 0 <= i < j < |t.restaurants| ==> LexLe(t.restaurants[i].name, t.restaurants[j].name)
    ensures Sorting.SameKeyClasses(t.restaurants, s.restaurants, NameKey)
    ensures t.sortOption == Name
    ensures t.searchQuery == s.searchQuery && t.isLoading == s.isLoading && t.showBottomSheet == s.showBottomSheet
    ensures FilterConsistent(t)
  {
    AfterFilter(s.(restaurants := SortedByName(s.restaurants), sortOption := Name))
  }

  /** `sortByBestDeals()`: reorder the full list by best deal, then filter. */
  function AfterSortByBestDeals(s: ListViewState): (t: ListViewState)
    ensures multiset(t.restaurants) == multiset(s.restaurants)
    ensures forall i, j :: 0 <= i < j < |t.restaurants| ==> BestDeal(t.restaurants[i]) >= BestDeal(t.restaurants[j])
    ensures Sorting.SameKeyClasses(t.restaurants, s.restaurants, BestDeal)
    ensures t.sortOption == BestDeals
    ensures t.searchQuery == s.searchQuery && t.isLoading == s.isLoading && t.showBottomSheet == s.showBottomSheet
    ensures FilterConsistent(t)
  {
    AfterFilter(s.(restaurants := SortedByBestDeals(s.restaurants), sortOption := BestDeals))
  }

  /** `onSettingsClicked(show)`: only the bottom-sheet flag changes. */
  function AfterSettingsClicked(s: ListViewState, show: bool): (t: ListViewState)
    ensures t.showBottomSheet == show
    ensures t == s.(showBottomSheet := t.showBottomSheet)
  {
    s.(showBottomSheet := show)
  }

  /** `onRestaurantSelected(restaurant)`: the new detail state, replacing the old one. */
  function DetailFor(r: Restaurant): (d: DetailViewState)
    ensures d.restaurant == Some(r)
    ensures multiset(d.deals) == multiset(r.deals)
    ensures forall i, j :: 0 <= i < j < |d.deals| ==> d.deals[i].discount >= d.deals[j].discount
    ensures Sorting.SameKeyClasses(d.deals, r.deals, DiscountKey)
  {
    DetailViewState(Some(r), SortedByDiscount(r.deals))
  }

  /** Changing the query twice to the same text gives the state of changing it once. */
  lemma SearchQueryChangedIdempotent(s: ListViewState, query: string)
    ensures AfterSearchQueryChanged(AfterSearchQueryChanged(s, query), query) == AfterSearchQueryChanged(s, query)
  {
  }

  /** Sorting by name twice gives the state of sorting once. */
  lemma SortByNameIdempotent(s: ListViewState)
    ensures AfterSortByName(AfterSortByName(s)) == AfterSortByName(s)
  {
    SortedByNameIdempotent(s.restaurants);
  }

  /** Sorting by best deal twice gives the state of sorting once. */
  lemma SortByBestDealsIdempotent(s: ListViewState)
    ensures AfterSortByBestDeals(AfterSortByBestDeals(s)) == AfterSortByBestDeals(s)
  {
    SortedByBestDealsIdempotent(s.restaurants);
  }

  /**
   * A successful fetch shows the search applied to the full list exactly when the
   * current query is blank or every fetched restaurant matches it.
   */
  lemma FetchSucceededConsistency(s: ListViewState, fetched: seq<Restaurant>)
    ensures FilterConsistent(AfterFetchSucceeded(s, fetched))
            <==> IsBlank(s.searchQuery) || forall x :: x in fetched ==> Matches(x, s.searchQuery)
  {
    var sorted := SortedByBestDeals(fetched);
    FilterKeepsAll(sorted, s.searchQuery);
    assert forall x :: x in fetched <==> x in sorted by {
      forall x ensures x in fetched <==> x in sorted {
        assert x in fetched <==> x in multiset(fetched);
        assert x in sorted <==> x in multiset(sorted);
      }
    }
  }

  /**
   * The restaurant list state manager: the list view state, the detail view state,
   * and the one-slot, drop-oldest actions buffer. The ghost fields record every action
   * emitted and which of them were collected, by index.
   */
  class RestaurantListViewModel {
    var viewState: ListViewState
    var detailViewState: DetailViewState
    var pendingAction: Option<Action>
    ghost var emitted: seq<Action>
    ghost var collected: seq<nat>

    /** The shown list is always drawn, in order, from the full list. */
    ghost predicate ListValid()
      reads this
    {
      IsSubsequence(viewState.filteredRestaurants, viewState.restaurants)
    }

    /**
     * Every emission is collected at most once and in order; the slot holds only the
     * latest emission, and only while it has not been collected.
     */
    ghost predicate MailboxValid()
      reads this
    {
      && (forall i :: 0 <= i < |collected| ==> collected[i] < |emitted|)
      && (forall i, j :: 0 <= i < j < |collected| ==> collected[i] < collected[j])
      && (pendingAction.Some? ==>
            && |emitted| > 0
            && pendingAction.value == emitted[|emitted| - 1]
            && (collected == [] || collected[|collected| - 1] < |emitted| - 1))
    }

    ghost predicate Valid()
      reads this
    {
      ListValid() && MailboxValid()
    }

    /** The state of a new view model, before its fetch starts. */
    constructor ()
      ensures Valid()
      ensures viewState == DefaultListViewState()
      ensures detailViewState == DefaultDetailViewState()
      ensures pendingAction == None && emitted == [] && collected == []
    {
      viewState := DefaultListViewState();
      detailViewState := DefaultDetailViewState();
      pendingAction := None;
      emitted := [];
      collected := [];
    }

    /** The first step of `fetchRestaurants()`: show the loading indicator. */
    method BeginFetch()
      requires Valid()
      modifies this`viewState
      ensures Valid()
      ensures viewState == AfterFetchStarted(old(viewState))
    {
      viewState := viewState.(isLoading := true);
    }

    /**
     * The rest of `fetchRestaurants()`, once the repository has answered:
     * on success both lists become the sorted fetched list; on failure a
     * snackbar message is emitted and the loading indicator is cleared.
     */
    method CompleteFetch(result: FetchResult)
      requires Valid()
      modifies this`viewState, this`pendingAction, this`emitted
      ensures Valid()
      ensures result.Fetched? ==>
        && viewState == AfterFetchSucceeded(old(viewState), result.restaurantList)
        && pendingAction == old(pendingAction) && emitted == old(emitted)
      ensures result.FetchFailed? ==>
        && viewState == AfterFetchFailed(old(viewState))
        && pendingAction == Some(Action.ShowSnackBarMessage(FetchErrorMessage))
        && emitted == old(emitted) + [Action.ShowSnackBarMessage(FetchErrorMessage)]
    {
      match result
      case Fetched(list) =>
        var sorted := SortedByBestDeals(list);
        viewState := viewState.(restaurants := sorted, filteredRestaurants := sorted,
                                isLoading := false, sortOption := BestDeals);
        SubsequenceReflexive(sorted);
      case FetchFailed =>
        ShowSnackBarMessage(FetchErrorMessage);
        viewState := viewState.(isLoading := false);
    }

    /** `onSearchQueryChanged(query)`: store the query, then filter. */
    method OnSearchQueryChanged(query: string)
      requires Valid()
      modifies this`viewState
      ensures Valid()
      ensures viewState == AfterSearchQueryChanged(old(viewState), query)
    {
      viewState := viewState.(searchQuery := query);
      FilterRestaurants();
    }

    /** `filterRestaurants()`: recompute the shown list from the full list and the query. */
    method FilterRestaurants()
      requires MailboxValid()
      modifies this`viewState
      ensures Valid()
      ensures viewState == AfterFilter(old(viewState))
    {
      var filtered := Filter(viewState.restaurants, viewState.searchQuery);
      FilterSpec(viewState.restaurants, viewState.searchQuery);
      viewState := viewState.(filteredRestaurants := filtered);
    }

    /** `sortByName()`: reorder the full list by name, then filter. */
    method SortByName()
      requires Valid()
      modifies this`viewState
      ensures Valid()
      ensures viewState == AfterSortByName(old(viewState))
    {
      var sorted := SortedByName(viewState.restaurants);
      viewState := viewState.(restaurants := sorted, sortOption := Name);
      FilterRestaurants();
    }

    /** `sortByBestDeals()`: reorder the full list by best deal, then filter. */
    method SortByBestDeals()
      requires Valid()
      modifies this`viewState
      ensures Valid()
      ensures viewState == AfterSortByBestDeals(old(viewState))
    {
      var sorted := SortedByBestDeals(viewState.restaurants);
      viewState := viewState.(restaurants := sorted, sortOption := BestDeals);
      FilterRestaurants();
    }

    /** `onRestaurantSelected(restaurant)`: replace the detail state; the list state is untouched. */
    method OnRestaurantSelected(restaurant: Restaurant)
      requires Valid()
      modifies this`detailViewState
      ensures Valid()
      ensures detailViewState == DetailFor(restaurant)
    {
      detailViewState := DetailViewState(Some(restaurant), SortedByDiscount(restaurant.deals));
    }

    /** `onSettingsClicked(show)`: set the bottom-sheet flag. */
    method OnSettingsClicked(show: bool)
      requires Valid()
      modifies this`viewState
      ensures Valid()
      ensures viewState == AfterSettingsClicked(old(viewState), show)
    {
      viewState := viewState.(showBottomSheet := show);
    }

    /** `showSnackBarMessage(message)`: emit into the one-slot buffer, dropping any uncollected action. */
    method ShowSnackBarMessage(message: string)
      requires MailboxValid()
      modifies this`pendingAction, this`emitted
      ensures MailboxValid()
      ensures pendingAction == Some(Action.ShowSnackBarMessage(message))
      ensures emitted == old(emitted) + [Action.ShowSnackBarMessage(message)]
    {
      var action := Action.ShowSnackBarMessage(message);
      emitted := emitted + [action];
      pendingAction := Some(action);
    }

    /** The subscriber of `actions` takes the buffered action, if any; the slot is then empty. */
    method CollectAction() returns (action: Option<Action>)
      requires Valid()
      modifies this`pendingAction, this`collected
      ensures Valid()
      ensures action == old(pendingAction) && pendingAction == None
      ensures action.Some? ==> action.value == emitted[|emitted| - 1]
      ensures collected == if action.Some? then old(collected) + [|emitted| - 1] else old(collected)
    {
      action := pendingAction;
      if action.Some? {
        collected := collected + [|emitted| - 1];
      }
      pendingAction := None;
    }
  }
}
