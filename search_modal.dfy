/** The quick search dialog (src/components/SearchModal.jsx): nine state fields, a search handler that
    appends the set fields to a parameter list one line at a time, a reset and the city picker's
    callback. Navigation is modelled by returning the route and the list. */
module SearchModal {
  import opened Wrappers
  import SearchParams
  import Listing

  /** The route the dialog navigates to. */
  const Route := "/recherche"

  /** The fixed order in which the handler appends its parameters. */
  const Order: seq<string> := ["q", "category", "city", "minPrice", "maxPrice", "date", "photos", "verified"]

  lemma OrderDistinct()
    ensures forall i, j :: 0 <= i < j < |Order| ==> Order[i] != Order[j]
  {
  }

  /** The eight `if (…) params.append(…)` lines of `handleSearch`, in source order. */
  function HandlerLines(searchTerm: string, category: string, city: string, minPrice: string, maxPrice: string,
                        dateFilter: string, withPhotos: bool, verifiedOnly: bool): seq<SearchParams.Field>
  {
    [SearchParams.Field("q", searchTerm, searchTerm != ""),
     SearchParams.Field("category", category, category != ""),
     SearchParams.Field("city", city, city != ""),
     SearchParams.Field("minPrice", minPrice, minPrice != ""),
     SearchParams.Field("maxPrice", maxPrice, maxPrice != ""),
     SearchParams.Field("date", dateFilter, dateFilter != "all"),
     SearchParams.Field("photos", "true", withPhotos),
     SearchParams.Field("verified", "true", verifiedOnly)]
  }

  /** The lines carry the names of the fixed order, each once. */
  lemma HandlerLinesNamed(searchTerm: string, category: string, city: string, minPrice: string, maxPrice: string,
                          dateFilter: string, withPhotos: bool, verifiedOnly: bool)
    ensures var lines := HandlerLines(searchTerm, category, city, minPrice, maxPrice, dateFilter, withPhotos, verifiedOnly);
      SearchParams.Names(lines) == Order && SearchParams.DistinctNames(lines)
  {
    var lines := HandlerLines(searchTerm, category, city, minPrice, maxPrice, dateFilter, withPhotos, verifiedOnly);
    OrderDistinct();
    assert SearchParams.Names(lines) == Order;
    SearchParams.DistinctOrder(lines, Order);
  }

  /** What the results of `handleSearch` read back: every set text field under its name, `date`
      whenever the period is not 'all' (even an empty one), and the two boxes as 'true' when ticked. */
  lemma SearchReadBack(searchTerm: string, category: string, city: string, minPrice: string, maxPrice: string,
                       dateFilter: string, withPhotos: bool, verifiedOnly: bool)
    ensures var params := SearchParams.Appended(HandlerLines(searchTerm, category, city, minPrice, maxPrice, dateFilter, withPhotos, verifiedOnly));
      && SearchParams.Get(params, "q") == (if searchTerm != "" then Some(searchTerm) else None)
      && SearchParams.Get(params, "category") == (if category != "" then Some(category) else None)
      && SearchParams.Get(params, "city") == (if city != "" then Some(city) else None)
      && SearchParams.Get(params, "minPrice") == (if minPrice != "" then Some(minPrice) else None)
      && SearchParams.Get(params, "maxPrice") == (if maxPrice != "" then Some(maxPrice) else None)
      && SearchParams.Get(params, "date") == (if dateFilter != "all" then Some(dateFilter) else None)
      && SearchParams.Get(params, "photos") == (if withPhotos then Some("true") else None)
      && SearchParams.Get(params, "verified") == (if verifiedOnly then Some("true") else None)
  {
    var lines := HandlerLines(searchTerm, category, city, minPrice, maxPrice, dateFilter, withPhotos, verifiedOnly);
    HandlerLinesNamed(searchTerm, category, city, minPrice, maxPrice, dateFilter, withPhotos, verifiedOnly);
    SearchParams.AppendedGet(lines, 0);
    SearchParams.AppendedGet(lines, 1);
    SearchParams.AppendedGet(lines, 2);
    SearchParams.AppendedGet(lines, 3);
    SearchParams.AppendedGet(lines, 4);
    SearchParams.AppendedGet(lines, 5);
    SearchParams.AppendedGet(lines, 6);
    SearchParams.AppendedGet(lines, 7);
  }

  /** The names come in the fixed order, so each at most once. */
  lemma SearchOrdered(searchTerm: string, category: string, city: string, minPrice: string, maxPrice: string,
                      dateFilter: string, withPhotos: bool, verifiedOnly: bool)
    ensures SearchParams.Ordered(SearchParams.Appended(HandlerLines(searchTerm, category, city, minPrice, maxPrice, dateFilter, withPhotos, verifiedOnly)), Order)
  {
    var lines := HandlerLines(searchTerm, category, city, minPrice, maxPrice, dateFilter, withPhotos, verifiedOnly);
    HandlerLinesNamed(searchTerm, category, city, minPrice, maxPrice, dateFilter, withPhotos, verifiedOnly);
    SearchParams.AppendedOrdered(lines);
  }

  class SearchForm {
    var searchTerm: string
    var category: string
    var city: string
    var cityInputValue: string
    var minPrice: string
    var maxPrice: string
    var dateFilter: string
    var withPhotos: bool
    var verifiedOnly: bool

    function Lines(): seq<SearchParams.Field>
      reads this
    {
      HandlerLines(searchTerm, category, city, minPrice, maxPrice, dateFilter, withPhotos, verifiedOnly)
    }

    predicate IsInitial()
      reads this
    {
      searchTerm == "" && category == "" && city == "" && cityInputValue == "" &&
      minPrice == "" && maxPrice == "" && dateFilter == "all" && !withPhotos && !verifiedOnly
    }

    constructor()
      ensures IsInitial()
    {
      searchTerm := "";
      category := "";
      city := "";
      cityInputValue := "";
      minPrice := "";
      maxPrice := "";
      dateFilter := "all";
      withPhotos := false;
      verifiedOnly := false;
    }

    /** `handleSearch`: the parameters are appended one line at a time; what they read back as is
        `SearchReadBack`. */
    method Search() returns (route: string, params: SearchParams.Params)
      ensures route == Route
      ensures params == SearchParams.Appended(Lines())
    {
      params := [];
      params := SearchParams.AppendIf(params, "q", searchTerm, searchTerm != "");
      params := SearchParams.AppendIf(params, "category", category, category != "");
      params := SearchParams.AppendIf(params, "city", city, city != "");
      params := SearchParams.AppendIf(params, "minPrice", minPrice, minPrice != "");
      params := SearchParams.AppendIf(params, "maxPrice", maxPrice, maxPrice != "");
      params := SearchParams.AppendIf(params, "date", dateFilter, dateFilter != "all");
      params := SearchParams.AppendIf(params, "photos", "true", withPhotos);
      params := SearchParams.AppendIf(params, "verified", "true", verifiedOnly);
      SearchParams.AppendedEight(
        SearchParams.Field("q", searchTerm, searchTerm != ""),
        SearchParams.Field("category", category, category != ""),
        SearchParams.Field("city", city, city != ""),
        SearchParams.Field("minPrice", minPrice, minPrice != ""),
        SearchParams.Field("maxPrice", maxPrice, maxPrice != ""),
        SearchParams.Field("date", dateFilter, dateFilter != "all"),
        SearchParams.Field("photos", "true", withPhotos),
        SearchParams.Field("verified", "true", verifiedOnly));
      route := Route;
    }

    /** `handleReset`: all nine fields back to their initial values. */
    method Reset()
      modifies this
      ensures IsInitial()
    {
      searchTerm := "";
      category := "";
      city := "";
      cityInputValue := "";
      minPrice := "";
      maxPrice := "";
      dateFilter := "all";
      withPhotos := false;
      verifiedOnly := false;
    }

    /** `handleCitySelect`: a picked place with a city sets the city and shows "city, country"; anything
        else changes nothing. */
    method CitySelect(location: Option<Listing.Location>)
      modifies this
      ensures location.Some? && location.value.city != "" ==>
                city == location.value.city &&
                cityInputValue == location.value.city + ", " + location.value.country
      ensures !(location.Some? && location.value.city != "") ==>
                city == old(city) && cityInputValue == old(cityInputValue)
      ensures searchTerm == old(searchTerm) && category == old(category)
      ensures minPrice == old(minPrice) && maxPrice == old(maxPrice) && dateFilter == old(dateFilter)
      ensures withPhotos == old(withPhotos) && verifiedOnly == old(verifiedOnly)
    {
      if location.Some? && location.value.city != "" {
        city := location.value.city;
        cityInputValue := location.value.city + ", " + location.value.country;
      }
    }
  }
}
