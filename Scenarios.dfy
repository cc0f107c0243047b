/**
 * The situations of `RestaurantListViewModelTest.kt`, stated on the model, and a
 * few more: a lower-case search, the fetch failure path, the drop-oldest message
 * buffer, and one situation showing that sorting by name keeps the earlier order
 * of restaurants that share a name.
 */
module Scenarios {
  import opened Wrappers
  import opened DataModel
  import opened Derivations
  import opened RestaurantContract
  import opened ViewModel

  function TestDeal(id: string, discount: int): Deal {
    Deal(id, discount, 0, false, None, None, None, None, None)
  }

  function TestRestaurant(id: string, name: string, cuisine: string, deals: seq<Deal>): Restaurant {
    Restaurant(id, name, "", "", [cuisine], "", "", "", deals)
  }

  /** Two elements already in order stay as they are. */
  lemma SortTwoInOrder<T, K>(x: T, y: T, key: T -> K, le: (K, K) -> bool)
    requires le(key(x), key(y))
    ensures Sorting.SortBy([x, y], key, le) == [x, y]
  {
    assert [x, y][1..] == [y];
    assert Sorting.SortBy([y], key, le) == [y];
  }

  /** Two elements out of order swap places. */
  lemma SortTwoSwapped<T, K>(x: T, y: T, key: T -> K, le: (K, K) -> bool)
    requires !le(key(x), key(y))
    ensures Sorting.SortBy([x, y], key, le) == [y, x]
  {
    assert [x, y][1..] == [y];
    assert Sorting.SortBy([y], key, le) == [y];
    assert Sorting.Insert(x, [y], key, le) == [y] + Sorting.Insert(x, [], key, le);
  }

  /** After a successful fetch of A (best deal 10) and B (best deal 20), B comes first. */
  lemma FetchSortsByBestDeals()
    ensures var a := TestRestaurant("1", "Restaurant A", "Italian", [TestDeal("d1", 10)]);
            var b := TestRestaurant("2", "Restaurant B", "Mexican", [TestDeal("d2", 20)]);
            var t := AfterFetchSucceeded(AfterFetchStarted(DefaultListViewState()), [a, b]);
            && !t.isLoading && t.sortOption == BestDeals
            && t.restaurants == [b, a] && t.restaurants[0].name == "Restaurant B"
  {
    var a := TestRestaurant("1", "Restaurant A", "Italian", [TestDeal("d1", 10)]);
    var b := TestRestaurant("2", "Restaurant B", "Mexican", [TestDeal("d2", 20)]);
    assert BestDeal(a) == 10 && BestDeal(b) == 20;
    SortTwoSwapped(a, b, BestDeal, AtLeast);
  }

  /** Two restaurants without deals keep their fetched order. */
  lemma FetchKeepsOrderOfEqualBestDeals(a: Restaurant, b: Restaurant)
    requires a.deals == [] && b.deals == []
    ensures SortedByBestDeals([a, b]) == [a, b]
  {
    assert BestDeal(a) == 0 && BestDeal(b) == 0;
    SortTwoInOrder(a, b, BestDeal, AtLeast);
  }

  lemma NameContainsQuery()
    ensures Text.ContainsIgnoreCase("Restaurant A", "t A")
  {
    Text.ContainsIgnoreCaseIff("Restaurant A", "t A");
    assert Text.OccursAt("Restaurant A", "t A", 9);
  }

  // The four "lacks" facts below are instances of one lemma, `MissingPairNotContained`.
  // Each sits in a lemma of its own so that every proof about a string literal stays small.
  lemma NameBLacksNameQuery()
    ensures !Text.ContainsIgnoreCase("Restaurant B", "t A")
  {
    Text.MissingPairNotContained("Restaurant B", "t A", 1);
  }

  lemma CuisineBLacksNameQuery()
    ensures !Text.ContainsIgnoreCase("Mexican", "t A")
  {
    Text.MissingPairNotContained("Mexican", "t A", 0);
  }

  lemma NameALacksCuisineQuery()
    ensures !Text.ContainsIgnoreCase("Restaurant A", "Mex")
  {
    Text.MissingPairNotContained("Restaurant A", "Mex", 0);
  }

  lemma CuisineALacksCuisineQuery()
    ensures !Text.ContainsIgnoreCase("Italian", "Mex")
  {
    Text.MissingPairNotContained("Italian", "Mex", 0);
  }

  lemma CuisineContainsQuery()
    ensures Text.ContainsIgnoreCase("Mexican", "Mex")
  {
    assert Text.StartsWithIgnoreCase("Mexican", "Mex");
  }

  /** A test restaurant matches when its name or its one cuisine contains the query. */
  lemma TestRestaurantMatches(id: string, name: string, cuisine: string, query: string)
    ensures Matches(TestRestaurant(id, name, cuisine, []), query)
            <==> Text.ContainsIgnoreCase(name, query) || Text.ContainsIgnoreCase(cuisine, query)
  {
    assert TestRestaurant(id, name, cuisine, []).cuisines == [cuisine];
  }

  /** Only restaurant A matches "t A". */
  lemma NameQueryMatches()
    ensures Matches(TestRestaurant("1", "Restaurant A", "Italian", []), "t A")
    ensures !Matches(TestRestaurant("2", "Restaurant B", "Mexican", []), "t A")
  {
    NameContainsQuery();
    NameBLacksNameQuery();
    CuisineBLacksNameQuery();
    TestRestaurantMatches("1", "Restaurant A", "Italian", "t A");
    TestRestaurantMatches("2", "Restaurant B", "Mexican", "t A");
  }

  /** Only restaurant B matches "Mex". */
  lemma CuisineQueryMatches()
    ensures !Matches(TestRestaurant("1", "Restaurant A", "Italian", []), "Mex")
    ensures Matches(TestRestaurant("2", "Restaurant B", "Mexican", []), "Mex")
  {
    NameALacksCuisineQuery();
    CuisineALacksCuisineQuery();
    CuisineContainsQuery();
    TestRestaurantMatches("1", "Restaurant A", "Italian", "Mex");
    TestRestaurantMatches("2", "Restaurant B", "Mexican", "Mex");
  }

  /** After fetching A and B, searching keeps exactly the restaurants that match, in order. */
  lemma SearchAfterFetch(a: Restaurant, b: Restaurant, query: string)
    requires a.deals == [] && b.deals == []
    requires !Text.IsBlank(query)
    ensures var t := AfterFetchSucceeded(AfterFetchStarted(DefaultListViewState()), [a, b]);
            AfterSearchQueryChanged(t, query).filteredRestaurants
            == (if Matches(a, query) then [a] else []) + (if Matches(b, query) then [b] else [])
  {
    FetchKeepsOrderOfEqualBestDeals(a, b);
    assert [a, b][1..] == [b];
    assert KeepMatching([b], query) == if Matches(b, query) then [b] else [];
  }

  /** Searching "t A" after fetching A and B keeps only A, whose name contains it. */
  lemma SearchFiltersByName()
    ensures var a := TestRestaurant("1", "Restaurant A", "Italian", []);
            var b := TestRestaurant("2", "Restaurant B", "Mexican", []);
            var t := AfterFetchSucceeded(AfterFetchStarted(DefaultListViewState()), [a, b]);
            AfterSearchQueryChanged(t, "t A").filteredRestaurants == [a]
  {
    assert !Text.IsWhitespace("t A"[0]);
    NameQueryMatches();
    SearchAfterFetch(TestRestaurant("1", "Restaurant A", "Italian", []),
                     TestRestaurant("2", "Restaurant B", "Mexican", []), "t A");
  }

  /** Searching "Mex" after fetching A and B keeps only B, whose cuisine contains it. */
  lemma SearchFiltersByCuisine()
    ensures var a := TestRestaurant("1", "Restaurant A", "Italian", []);
            var b := TestRestaurant("2", "Restaurant B", "Mexican", []);
            var t := AfterFetchSucceeded(AfterFetchStarted(DefaultListViewState()), [a, b]);
            AfterSearchQueryChanged(t, "Mex").filteredRestaurants == [b]
  {
    assert !Text.IsWhitespace("Mex"[0]);
    CuisineQueryMatches();
    SearchAfterFetch(TestRestaurant("1", "Restaurant A", "Italian", []),
                     TestRestaurant("2", "Restaurant B", "Mexican", []), "Mex");
  }

  lemma LowerCaseQueryFolds()
    ensures |"mex"| == |"Mex"|
    ensures forall j :: 0 <= j < |"Mex"| ==> Text.Fold("mex"[j]) == Text.Fold("Mex"[j])
  {
    assert Text.Fold('m') == Text.Fold('M');
  }

  /** A query typed in lower case finds the same restaurants as its capitalised form. */
  lemma LowerCaseQueryMatches()
    ensures !Matches(TestRestaurant("1", "Restaurant A", "Italian", []), "mex")
    ensures Matches(TestRestaurant("2", "Restaurant B", "Mexican", []), "mex")
  {
    CuisineQueryMatches();
    LowerCaseQueryFolds();
    MatchesIgnoresCaseOfQuery(TestRestaurant("1", "Restaurant A", "Italian", []), "Mex", "mex");
    MatchesIgnoresCaseOfQuery(TestRestaurant("2", "Restaurant B", "Mexican", []), "Mex", "mex");
  }

  /** Searching "mex" after fetching A and B keeps only B, whose cuisine is "Mexican". */
  lemma SearchIgnoresCase()
    ensures var a := TestRestaurant("1", "Restaurant A", "Italian", []);
            var b := TestRestaurant("2", "Restaurant B", "Mexican", []);
            var t := AfterFetchSucceeded(AfterFetchStarted(DefaultListViewState()), [a, b]);
            AfterSearchQueryChanged(t, "mex").filteredRestaurants == [b]
  {
    assert !Text.IsWhitespace("mex"[0]);
    LowerCaseQueryMatches();
    SearchAfterFetch(TestRestaurant("1", "Restaurant A", "Italian", []),
                     TestRestaurant("2", "Restaurant B", "Mexican", []), "mex");
  }

  /** "Restaurant A" comes before "Restaurant B" and not the other way round. */
  lemma TestNamesOrdered()
    ensures Text.LexLe("Restaurant A", "Restaurant B")
    ensures !Text.LexLe("Restaurant B", "Restaurant A")
  {
    assert "Restaurant A" == "Restaurant " + "A" && "Restaurant B" == "Restaurant " + "B";
    Text.LexLeCommonPrefix("Restaurant ", "A", "B");
    Text.LexLeCommonPrefix("Restaurant ", "B", "A");
  }

  /** Sorting B, A by name gives A, B. */
  lemma SortByNameOrdersByName()
    ensures var b := TestRestaurant("1", "Restaurant B", "Italian", []);
            var a := TestRestaurant("2", "Restaurant A", "Mexican", []);
            var t := AfterSortByName(AfterFetchSucceeded(AfterFetchStarted(DefaultListViewState()), [b, a]));
            t.restaurants == [a, b] && t.sortOption == Name
  {
    var b := TestRestaurant("1", "Restaurant B", "Italian", []);
    var a := TestRestaurant("2", "Restaurant A", "Mexican", []);
    FetchKeepsOrderOfEqualBestDeals(b, a);
    TestNamesOrdered();
    SortTwoSwapped(b, a, NameKey, Text.LexLe);
  }

  /** Three elements with distinct keys end up with the largest key first. */
  lemma SortThreeDescending<T>(x: T, y: T, z: T, key: T -> int)
    requires key(y) > key(z) > key(x)
    ensures Sorting.SortBy([x, y, z], key, AtLeast) == [y, z, x]
  {
    assert [x, y, z][1..] == [y, z] && [y, z][1..] == [z];
    assert Sorting.SortBy([z], key, AtLeast) == [z];
    assert Sorting.SortBy([y, z], key, AtLeast) == [y, z];
    assert Sorting.Insert(x, [z], key, AtLeast) == [z, x];
    assert Sorting.Insert(x, [y, z], key, AtLeast) == [y, z, x];
  }

  /** After fetching A (10), B (30) and C (20), sorting by best deal gives B, C, A. */
  lemma SortByBestDealsOrdersByHighestDiscount()
    ensures var a := TestRestaurant("1", "Restaurant A", "Italian", [TestDeal("d1", 10)]);
            var b := TestRestaurant("2", "Restaurant B", "Mexican", [TestDeal("d2", 30)]);
            var c := TestRestaurant("3", "Restaurant C", "Indian", [TestDeal("d3", 20)]);
            var t := AfterSortByBestDeals(AfterFetchSucceeded(AfterFetchStarted(DefaultListViewState()), [a, b, c]));
            t.restaurants == [b, c, a] && t.sortOption == BestDeals
  {
    var a := TestRestaurant("1", "Restaurant A", "Italian", [TestDeal("d1", 10)]);
    var b := TestRestaurant("2", "Restaurant B", "Mexican", [TestDeal("d2", 30)]);
    var c := TestRestaurant("3", "Restaurant C", "Indian", [TestDeal("d3", 20)]);
    assert BestDeal(a) == 10 && BestDeal(b) == 30 && BestDeal(c) == 20;
    SortThreeDescending(a, b, c, BestDeal);
    SortedByBestDealsIdempotent([a, b, c]);
  }

  /** Selecting a restaurant with deals of 10 and 20 shows the 20 deal first. */
  lemma SelectionSortsDeals()
    ensures var d1, d2 := TestDeal("d1", 10), TestDeal("d2", 20);
            var r := TestRestaurant("1", "Restaurant A", "Italian", [d1, d2]);
            var d := DetailFor(r);
            d.restaurant == Some(r) && d.deals == [d2, d1] && d.deals[0].discount == 20
  {
    var d1, d2 := TestDeal("d1", 10), TestDeal("d2", 20);
    var t := [d2, d1];
    assert Sorting.SameKeyClasses(t, [d1, d2], DiscountKey) by {
      forall k ensures Sorting.WithKey(t, DiscountKey, k) == Sorting.WithKey([d1, d2], DiscountKey, k) {
        assert t[1..] == [d1] && [d1, d2][1..] == [d2];
      }
    }
    SortedByDiscountUnique([d1, d2], t);
  }

  /**
   * Two restaurants named "X": sorting by name, by best deal and by name again
   * leaves them in the best-deal order, not the first name order.
   */
  lemma NameSortKeepsOrderOfEqualNames()
    ensures var a := TestRestaurant("1", "X", "Italian", [TestDeal("d1", 10)]);
            var b := TestRestaurant("2", "X", "Mexican", [TestDeal("d2", 20)]);
            && SortedByName([a, b]) == [a, b]
            && SortedByName(SortedByBestDeals(SortedByName([a, b]))) == [b, a]
  {
    var a := TestRestaurant("1", "X", "Italian", [TestDeal("d1", 10)]);
    var b := TestRestaurant("2", "X", "Mexican", [TestDeal("d2", 20)]);
    assert BestDeal(a) == 10 && BestDeal(b) == 20;
    assert Text.LexLe("X", "X");
    SortTwoInOrder(a, b, NameKey, Text.LexLe);
    SortTwoSwapped(a, b, BestDeal, AtLeast);
    SortTwoInOrder(b, a, NameKey, Text.LexLe);
  }

  /**
   * The failure path of the fetch: the loading flag is cleared, the lists stay
   * empty, and the subscriber collects "Something went wrong" once.
   */
  method FetchFailureShowsOneMessage() returns (state: ListViewState, first: Option<Action>, second: Option<Action>)
    ensures !state.isLoading && state.restaurants == [] && state.filteredRestaurants == []
    ensures first == Some(Action.ShowSnackBarMessage("Something went wrong"))
    ensures second == None
  {
    var vm := new RestaurantListViewModel();
    vm.BeginFetch();
    vm.CompleteFetch(FetchFailed);
    state := vm.viewState;
    first := vm.CollectAction();
    second := vm.CollectAction();
  }

  /** Opening and then closing the settings sheet after a fetch leaves the list state as it was. */
  method SettingsToggle(fetched: seq<Restaurant>) returns (before: ListViewState, withSheet: ListViewState, withoutSheet: ListViewState)
    ensures !before.showBottomSheet
    ensures withSheet.showBottomSheet && withSheet == before.(showBottomSheet := true)
    ensures withoutSheet == before
  {
    var vm := new RestaurantListViewModel();
    vm.BeginFetch();
    vm.CompleteFetch(Fetched(fetched));
    before := vm.viewState;
    vm.OnSettingsClicked(true);
    withSheet := vm.viewState;
    vm.OnSettingsClicked(false);
    withoutSheet := vm.viewState;
  }

  /** A second message emitted before the first is collected replaces it; the slot is then empty. */
  method NewMessageDropsOldest() returns (taken: Option<Action>, again: Option<Action>)
    ensures taken == Some(Action.ShowSnackBarMessage("second"))
    ensures again == None
  {
    var vm := new RestaurantListViewModel();
    vm.ShowSnackBarMessage("first");
    vm.ShowSnackBarMessage("second");
    taken := vm.CollectAction();
    again := vm.CollectAction();
  }
}
