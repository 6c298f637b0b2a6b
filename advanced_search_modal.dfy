/** The advanced search panel (src/components/AdvancedSearchModal.jsx): a six-field form object that
    every handler replaces, the city text shown in the picker, a submit handler that appends the set
    fields to a parameter list, the condition toggle, a reset and the city picker's callback. Its list
    is the one the results page reads back. */
module AdvancedSearchModal {
  import opened Wrappers
  import SearchParams
  import SearchResults
  import Listing

  /** The route the panel navigates to: the results page. */
  const Route := "/search"

  /** The fixed order in which `handleSubmit` appends its parameters. */
  const Order: seq<string> := ["q", "category", "minPrice", "maxPrice", "condition", "location"]

  /** The `formData` state object. */
  datatype FormData = FormData(
    query: string, category: string, minPrice: string, maxPrice: string,
    condition: string, location: string)

  const EmptyForm := FormData("", "", "", "", "", "")

  /** The six `if (formData.x) params.append(name, formData.x)` lines, in source order. */
  function SubmitLines(form: FormData): seq<SearchParams.Field>
  {
    [SearchParams.Field("q", form.query, form.query != ""),
     SearchParams.Field("category", form.category, form.category != ""),
     SearchParams.Field("minPrice", form.minPrice, form.minPrice != ""),
     SearchParams.Field("maxPrice", form.maxPrice, form.maxPrice != ""),
     SearchParams.Field("condition", form.condition, form.condition != ""),
     SearchParams.Field("location", form.location, form.location != "")]
  }

  /** The lines carry the names of the fixed order, each once, and none of them is 'city'. */
  lemma SubmitLinesNamed(form: FormData)
    ensures SearchParams.Names(SubmitLines(form)) == Order
    ensures SearchParams.DistinctNames(SubmitLines(form))
    ensures forall i :: 0 <= i < |SubmitLines(form)| ==> SubmitLines(form)[i].name != "city"
  {
    OrderDistinct();
    assert SearchParams.Names(SubmitLines(form)) == Order;
    SearchParams.DistinctOrder(SubmitLines(form), Order);
  }

  /** The order repeats no name and leaves 'city' out. */
  lemma OrderDistinct()
    ensures forall i, j :: 0 <= i < j < |Order| ==> Order[i] != Order[j]
    ensures "city" !in Order
  {
  }

  /** Round trip: the results page, reading the submitted list with `get(name) || ''`, recovers every
      field of the form, finds no 'city', and so filters on the form's location. */
  lemma SubmitRoundTrip(form: FormData)
    ensures var q := SearchResults.ReadSearchParams(SearchParams.Appended(SubmitLines(form)));
      && q == SearchResults.SearchQuery(form.query, form.category, form.minPrice, form.maxPrice, form.condition, form.location, "")
      && SearchResults.LocationFilter(q) == form.location
  {
    var lines := SubmitLines(form);
    SubmitLinesNamed(form);
    SearchParams.AppendedGet(lines, 0);
    SearchParams.AppendedGet(lines, 1);
    SearchParams.AppendedGet(lines, 2);
    SearchParams.AppendedGet(lines, 3);
    SearchParams.AppendedGet(lines, 4);
    SearchParams.AppendedGet(lines, 5);
    SearchParams.AppendedGetAbsent(lines, "city");
  }

  /** The names come in the fixed order, so each at most once. */
  lemma SubmitOrdered(form: FormData)
    ensures SearchParams.Ordered(SearchParams.Appended(SubmitLines(form)), Order)
  {
    SubmitLinesNamed(form);
    SearchParams.AppendedOrdered(SubmitLines(form));
  }

  /** A click on a condition button: the selected condition is cleared, any other one is selected. */
  function Toggled(current: string, clicked: string): (r: string)
    ensures r == "" || r == clicked
    ensures clicked != "" ==> (r == clicked <==> current != clicked)
  {
    if current == clicked then "" else clicked
  }

  /** Two clicks on the same button give back the selection when it was that button, and clear it
      otherwise. */
  lemma ToggledTwice(current: string, clicked: string)
    ensures Toggled(Toggled(current, clicked), clicked) == if current == clicked then current else ""
  {
  }

  class AdvancedSearch {
    var formData: FormData
    var cityInputValue: string

    constructor()
      ensures formData == EmptyForm && cityInputValue == ""
    {
      formData := EmptyForm;
      cityInputValue := "";
    }

    /** `handleSubmit`: the parameters are appended one line at a time; what the results page reads
        back from them is `SubmitRoundTrip`. */
    method Submit() returns (route: string, params: SearchParams.Params)
      ensures route == Route
      ensures params == SearchParams.Appended(SubmitLines(formData))
    {
      params := [];
      params := SearchParams.AppendIf(params, "q", formData.query, formData.query != "");
      params := SearchParams.AppendIf(params, "category", formData.category, formData.category != "");
      params := SearchParams.AppendIf(params, "minPrice", formData.minPrice, formData.minPrice != "");
      params := SearchParams.AppendIf(params, "maxPrice", formData.maxPrice, formData.maxPrice != "");
      params := SearchParams.AppendIf(params, "condition", formData.condition, formData.condition != "");
      params := SearchParams.AppendIf(params, "location", formData.location, formData.location != "");
      SearchParams.AppendedSix(
        SearchParams.Field("q", formData.query, formData.query != ""),
        SearchParams.Field("category", formData.category, formData.category != ""),
        SearchParams.Field("minPrice", formData.minPrice, formData.minPrice != ""),
        SearchParams.Field("maxPrice", formData.maxPrice, formData.maxPrice != ""),
        SearchParams.Field("condition", formData.condition, formData.condition != ""),
        SearchParams.Field("location", formData.location, formData.location != ""));
      route := Route;
    }

    /** A condition button's `onClick`: only the condition changes. */
    method ToggleCondition(value: string)
      modifies this
      ensures formData == old(formData).(condition := Toggled(old(formData).condition, value))
      ensures cityInputValue == old(cityInputValue)
    {
      formData := formData.(condition := Toggled(formData.condition, value));
    }

    /** `handleReset`: the six fields and the city text back to empty. */
    method Reset()
      modifies this
      ensures formData == EmptyForm && cityInputValue == ""
    {
      formData := EmptyForm;
      cityInputValue := "";
    }

    /** `handleCitySelect`: a picked place with a city sets only the form's location and shows
        "city, country"; anything else changes nothing. */
    method CitySelect(location: Option<Listing.Location>)
      modifies this
      ensures location.Some? && location.value.city != "" ==>
                formData == old(formData).(location := location.value.city) &&
                cityInputValue == location.value.city + ", " + location.value.country
      ensures !(location.Some? && location.value.city != "") ==>
                formData == old(formData) && cityInputValue == old(cityInputValue)
    {
      if location.Some? && location.value.city != "" {
        formData := formData.(location := location.value.city);
        cityInputValue := location.value.city + ", " + location.value.country;
      }
    }
  }
}
