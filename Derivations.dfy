/**
 * The expressions inside the list state manager (`RestaurantListViewModel.kt`):
 * the sort options, the best-deal key, the three stable sorts and the search filter.
 */
module Derivations {
  import opened DataModel
  import opened Sorting
  import opened Text

  /** The largest discount among the deals, or 0 when there are none. */
  function MaxDiscount(deals: seq<Deal>): (m: int)
    ensures deals == [] ==> m == 0
    ensures deals != [] ==> exists i :: 0 <= i < |deals| && deals[i].discount == m
    ensures forall i :: 0 <= i < |deals| ==> deals[i].discount <= m
  {
    if deals == [] then 0
    else if |deals| == 1 then deals[0].discount
    else
      var rest := MaxDiscount(deals[1..]);
      assert forall i :: 1 <= i < |deals| ==> deals[i] == deals[1..][i - 1];
      if deals[0].discount >= rest then deals[0].discount else rest
  }

  /** The best-deal key: the largest discount among the restaurant's deals, or 0 when it has none. */
  function BestDeal(r: Restaurant): (b: int)
    ensures r.deals == [] ==> b == 0
    ensures r.deals != [] ==> exists d :: d in r.deals && d.discount == b
    ensures forall d :: d in r.deals ==> d.discount <= b
  {
    MaxDiscount(r.deals)
  }

  /** The key the name sort compares: the restaurant's name. */
  function NameKey(r: Restaurant): string {
    r.name
  }

  /** The key the deal sort compares: the deal's discount. */
  function DiscountKey(d: Deal): int {
    d.discount
  }

  /** The order of a descending sort on integer keys: larger keys first. */
  predicate AtLeast(a: int, b: int) {
    a >= b
  }

  lemma AtLeastTotalOrder()
    ensures TotalOrder(AtLeast)
  {
  }

  /**
   * The restaurants stably sorted from the highest best deal down:
   * a permutation, non-increasing by best deal, restaurants with equal best deals in their earlier order.
   */
  function SortedByBestDeals(rs: seq<Restaurant>): (out: seq<Restaurant>)
    ensures multiset(out) == multiset(rs)
    ensures forall i, j :: 0 <= i < j < |out| ==> BestDeal(out[i]) >= BestDeal(out[j])
    ensures SameKeyClasses(out, rs, BestDeal)
  {
    AtLeastTotalOrder();
    SortBySorted(rs, BestDeal, AtLeast);
    SortByStableClasses(rs, BestDeal, AtLeast);
    SortBy(rs, BestDeal, AtLeast)
  }

  /**
   * The restaurants stably sorted by name: a permutation, non-decreasing by name under
   * `String.compareTo`, restaurants with equal names in their earlier order.
   */
  function SortedByName(rs: seq<Restaurant>): (out: seq<Restaurant>)
    ensures multiset(out) == multiset(rs)
    ensures forall i, j :: 0 <= i < j < |out| ==> LexLe(out[i].name, out[j].name)
    ensures SameKeyClasses(out, rs, NameKey)
  {
    LexLeTotalOrder();
    SortBySorted(rs, NameKey, LexLe);
    SortByStableClasses(rs, NameKey, LexLe);
    SortBy(rs, NameKey, LexLe)
  }

  /**
   * The deals stably sorted from the highest discount down: a permutation, non-increasing
   * by discount, deals with equal discounts in their original order.
   */
  function SortedByDiscount(ds: seq<Deal>): (out: seq<Deal>)
    ensures multiset(out) == multiset(ds)
    ensures forall i, j :: 0 <= i < j < |out| ==> out[i].discount >= out[j].discount
    ensures SameKeyClasses(out, ds, DiscountKey)
  {
    AtLeastTotalOrder();
    SortBySorted(ds, DiscountKey, AtLeast);
    SortByStableClasses(ds, DiscountKey, AtLeast);
    SortBy(ds, DiscountKey, AtLeast)
  }

  /** Sorting by best deal twice gives the order of sorting once. */
  lemma SortedByBestDealsIdempotent(rs: seq<Restaurant>)
    ensures SortedByBestDeals(SortedByBestDeals(rs)) == SortedByBestDeals(rs)
  {
    AtLeastTotalOrder();
    SortByIdempotent(rs, BestDeal, AtLeast);
  }

  /** Sorting by name twice gives the order of sorting once. */
  lemma SortedByNameIdempotent(rs: seq<Restaurant>)
    ensures SortedByName(SortedByName(rs)) == SortedByName(rs)
  {
    LexLeTotalOrder();
    SortByIdempotent(rs, NameKey, LexLe);
  }

  /**
   * Any stable sort agrees with the model: an order that is non-increasing by best deal
   * and keeps every group of equal best deals in its order in `rs` is `SortedByBestDeals(rs)`.
   */
  lemma SortedByBestDealsUnique(rs: seq<Restaurant>, t: seq<Restaurant>)
    requires forall i, j :: 0 <= i < j < |t| ==> BestDeal(t[i]) >= BestDeal(t[j])
    requires SameKeyClasses(t, rs, BestDeal)
    ensures t == SortedByBestDeals(rs)
  {
    AtLeastTotalOrder();
    assert Sorted(t, BestDeal, AtLeast) by {
      forall i, j | 0 <= i < j < |t| ensures AtLeast(BestDeal(t[i]), BestDeal(t[j])) {
      }
    }
    SortByUnique(rs, t, BestDeal, AtLeast);
  }

  /** Any stable sort by name agrees with the model. */
  lemma SortedByNameUnique(rs: seq<Restaurant>, t: seq<Restaurant>)
    requires forall i, j :: 0 <= i < j < |t| ==> LexLe(t[i].name, t[j].name)
    requires SameKeyClasses(t, rs, NameKey)
    ensures t == SortedByName(rs)
  {
    LexLeTotalOrder();
    SortByUnique(rs, t, NameKey, LexLe);
  }

  /** Any stable sort of deals by descending discount agrees with the model. */
  lemma SortedByDiscountUnique(ds: seq<Deal>, t: seq<Deal>)
    requires forall i, j :: 0 <= i < j < |t| ==> t[i].discount >= t[j].discount
    requires SameKeyClasses(t, ds, DiscountKey)
    ensures t == SortedByDiscount(ds)
  {
    AtLeastTotalOrder();
    assert Sorted(t, DiscountKey, AtLeast) by {
      forall i, j | 0 <= i < j < |t| ensures AtLeast(DiscountKey(t[i]), DiscountKey(t[j])) {
      }
    }
    SortByUnique(ds, t, DiscountKey, AtLeast);
  }

  /**
   * When no two restaurants share a name, sorting by name forgets any earlier order:
   * each permutation of the list sorts to the same sequence.
   */
  lemma SortedByNameIgnoresPriorOrder(rs: seq<Restaurant>, t: seq<Restaurant>)
    requires forall i, j :: 0 <= i < j < |rs| ==> rs[i].name != rs[j].name
    requires multiset(t) == multiset(rs)
    ensures SortedByName(t) == SortedByName(rs)
  {
    LexLeTotalOrder();
    assert KeysDistinct(rs, NameKey);
    SortByIgnoresOrderWhenKeysDistinct(rs, t, NameKey, LexLe);
  }

  /** With distinct names, sorting by name, then by best deal, then by name again gives the first name order. */
  lemma NameBestDealsNameRoundTrip(rs: seq<Restaurant>)
    requires forall i, j :: 0 <= i < j < |rs| ==> rs[i].name != rs[j].name
    ensures SortedByName(SortedByBestDeals(SortedByName(rs))) == SortedByName(rs)
  {
    SortedByNameIgnoresPriorOrder(rs, SortedByBestDeals(SortedByName(rs)));
    SortedByNameIgnoresPriorOrder(rs, SortedByName(rs));
  }

  /** `a` is `b` with some elements left out, the rest in their order. */
  ghost predicate IsSubsequence<T>(a: seq<T>, b: seq<T>)
    decreases |b|
  {
    if b == [] then a == []
    else IsSubsequence(a, b[1..]) || (a != [] && a[0] == b[0] && IsSubsequence(a[1..], b[1..]))
  }

  lemma {:induction false} SubsequenceReflexive<T>(s: seq<T>)
    ensures IsSubsequence(s, s)
    decreases |s|
  {
    if s != [] {
      SubsequenceReflexive(s[1..]);
    }
  }

  /** Every element of a subsequence is an element of the sequence it was drawn from. */
  lemma {:induction false} SubsequenceMember<T>(a: seq<T>, b: seq<T>, x: T)
    requires IsSubsequence(a, b) && x in a
    ensures x in b
    decreases |b|
  {
    if IsSubsequence(a, b[1..]) {
      SubsequenceMember(a, b[1..], x);
    } else if x != a[0] {
      assert x in a[1..];
      SubsequenceMember(a[1..], b[1..], x);
    }
  }

  /** The restaurant's name, or one of its cuisine tags, contains the query, ignoring case. */
  predicate Matches(r: Restaurant, query: string): (m: bool)
    ensures query == [] ==> m
    ensures m ==> |query| <= |r.name| || exists c :: c in r.cuisines && |query| <= |c|
  {
    || ContainsIgnoreCase(r.name, query)
    || exists c :: c in r.cuisines && ContainsIgnoreCase(c, query)
  }

  /** Whether a restaurant matches does not depend on the letter case of the query. */
  lemma MatchesIgnoresCaseOfQuery(r: Restaurant, q: string, q': string)
    requires |q'| == |q|
    requires forall j :: 0 <= j < |q| ==> Fold(q'[j]) == Fold(q[j])
    ensures Matches(r, q') == Matches(r, q)
  {
    ContainsIgnoresCaseOfQuery(r.name, q, q');
    forall c | c in r.cuisines ensures ContainsIgnoreCase(c, q') == ContainsIgnoreCase(c, q) {
      ContainsIgnoresCaseOfQuery(c, q, q');
    }
  }

  /** The restaurants whose name or some cuisine contains the query, ignoring case, in list order. */
  function KeepMatching(rs: seq<Restaurant>, query: string): (out: seq<Restaurant>)
    ensures IsSubsequence(out, rs)
    ensures forall x :: x in out ==> Matches(x, query)
    ensures forall x :: x in rs && Matches(x, query) ==> x in out
  {
    if rs == [] then []
    else
      var rest := KeepMatching(rs[1..], query);
      assert forall x :: x in rs ==> x == rs[0] || x in rs[1..];
      if Matches(rs[0], query) then
        assert ([rs[0]] + rest)[1..] == rest;
        [rs[0]] + rest
      else rest
  }

  lemma {:induction false} KeepMatchingCount(rs: seq<Restaurant>, query: string, x: Restaurant)
    ensures multiset(KeepMatching(rs, query))[x] == if Matches(x, query) then multiset(rs)[x] else 0
  {
    if rs != [] {
      KeepMatchingCount(rs[1..], query, x);
      assert rs == [rs[0]] + rs[1..];
    }
  }

  lemma {:induction false} KeepMatchingAll(rs: seq<Restaurant>, query: string)
    ensures KeepMatching(rs, query) == rs <==> forall x :: x in rs ==> Matches(x, query)
  {
    if rs != [] {
      KeepMatchingAll(rs[1..], query);
      assert rs == [rs[0]] + rs[1..];
      if !Matches(rs[0], query) {
        calc {
          |KeepMatching(rs, query)|;
          |multiset(KeepMatching(rs, query))|;
        <= { SubsequenceShorter(KeepMatching(rs[1..], query), rs[1..]); }
          |rs| - 1;
        }
      }
    }
  }

  lemma {:induction false} SubsequenceShorter<T>(a: seq<T>, b: seq<T>)
    requires IsSubsequence(a, b)
    ensures |a| <= |b|
    decreases |b|
  {
    if b != [] {
      if IsSubsequence(a, b[1..]) {
        SubsequenceShorter(a, b[1..]);
      } else {
        SubsequenceShorter(a[1..], b[1..]);
      }
    }
  }

  /**
   * The list the search shows: the whole list for a blank query, otherwise the
   * restaurants whose name or any cuisine contains the query, ignoring case.
   */
  function Filter(rs: seq<Restaurant>, query: string): (out: seq<Restaurant>)
    ensures IsSubsequence(out, rs)
    ensures IsBlank(query) ==> out == rs
    ensures !IsBlank(query) ==> forall x :: x in out <==> x in rs && Matches(x, query)
  {
    SubsequenceReflexive(rs);
    var kept := KeepMatching(rs, query);
    assert forall x :: x in kept ==> x in rs by {
      forall x | x in kept ensures x in rs {
        SubsequenceMember(kept, rs, x);
      }
    }
    if IsBlank(query) then rs else kept
  }

  /**
   * The search result keeps the list's order; a blank query keeps everything; otherwise
   * each restaurant is kept, as often as it occurs, exactly when it matches.
   */
  lemma FilterSpec(rs: seq<Restaurant>, query: string)
    ensures IsSubsequence(Filter(rs, query), rs)
    ensures IsBlank(query) ==> Filter(rs, query) == rs
    ensures !IsBlank(query) ==>
      forall x :: multiset(Filter(rs, query))[x] == if Matches(x, query) then multiset(rs)[x] else 0
  {
    if IsBlank(query) {
      SubsequenceReflexive(rs);
    } else {
      forall x ensures multiset(Filter(rs, query))[x] == if Matches(x, query) then multiset(rs)[x] else 0 {
        KeepMatchingCount(rs, query, x);
      }
    }
  }

  /** The search drops nothing exactly when the query is blank or every restaurant matches it. */
  lemma FilterKeepsAll(rs: seq<Restaurant>, query: string)
    ensures Filter(rs, query) == rs <==> IsBlank(query) || forall x :: x in rs ==> Matches(x, query)
  {
    KeepMatchingAll(rs, query);
  }
}
