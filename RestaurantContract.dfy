/**
 * The state records the list state manager publishes (`RestaurantContract.kt`):
 * the list view state, the one-off actions and the detail view state, with the
 * defaults their data classes declare.
 */
module RestaurantContract {
  import opened Wrappers
  import opened DataModel

  /** The order the restaurant list is shown in. */
  datatype SortOption = Name | BestDeals

  /** What the list screen shows. */
  datatype ListViewState = ListViewState(
    restaurants: seq<Restaurant>,
    filteredRestaurants: seq<Restaurant>,
    isLoading: bool,
    searchQuery: string,
    showBottomSheet: bool,
    sortOption: SortOption
  )

  /** The one-off notifications; there is exactly one kind. */
  datatype Action = ShowSnackBarMessage(messageText: string)

  /** What the detail screen shows: the selected restaurant and its deals. */
  datatype DetailViewState = DetailViewState(
    restaurant: Option<Restaurant>,
    deals: seq<Deal>
  )

  /** `RestaurantListViewState()` with every default argument. */
  function DefaultListViewState(): (s: ListViewState)
    ensures s.restaurants == [] && s.filteredRestaurants == []
    ensures !s.isLoading && s.searchQuery == "" && !s.showBottomSheet
    ensures s.sortOption == BestDeals
  {
    ListViewState([], [], false, "", false, BestDeals)
  }

  /** `RestaurantDetailViewState()` with every default argument. */
  function DefaultDetailViewState(): (d: DetailViewState)
    ensures d.restaurant == None && d.deals == []
  {
    DetailViewState(None, [])
  }
}
