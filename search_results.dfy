/** The results page's reading of its query string and the one-line summary of the active filters it
    shows above the results (src/pages/SearchResultsPage.jsx). The query itself runs on the server and
    is not modelled. */
module SearchResults {
  import Text
  import SearchParams

  /** The seven parameters the page reads, each `''` when missing. */
  datatype SearchQuery = SearchQuery(
    query: string, category: string, minPrice: string, maxPrice: string,
    condition: string, location: string, city: string)

  /** `searchParams.get(name) || ''` for each parameter the page uses. */
  function ReadSearchParams(params: SearchParams.Params): SearchQuery
  {
    SearchQuery(
      SearchParams.GetOrEmpty(params, "q"),
      SearchParams.GetOrEmpty(params, "category"),
      SearchParams.GetOrEmpty(params, "minPrice"),
      SearchParams.GetOrEmpty(params, "maxPrice"),
      SearchParams.GetOrEmpty(params, "condition"),
      SearchParams.GetOrEmpty(params, "location"),
      SearchParams.GetOrEmpty(params, "city"))
  }

  /** `location || cityParam`: the `location` parameter wins whenever it is set. */
  function LocationFilter(q: SearchQuery): (r: string)
    ensures r == "" <==> q.location == "" && q.city == ""
    ensures q.location != "" ==> r == q.location
    ensures r == q.location || r == q.city
  {
    if q.location != "" then q.location else q.city
  }

  const Fallback := "Toutes les annonces"
  const Separator := " \U{2022} "

  /** The price part: both bounds, a lower bound only, or an upper bound only. */
  function PriceText(minPrice: string, maxPrice: string): string
  {
    if minPrice != "" && maxPrice != "" then minPrice + "-" + maxPrice + " FCFA"
    else if minPrice != "" then "\U{C0} partir de " + minPrice + " FCFA"
    else "Jusqu'\U{E0} " + maxPrice + " FCFA"
  }

  /** Whatever bounds are set, the price part names each of them and ends in the currency. */
  lemma PriceTextMentions(minPrice: string, maxPrice: string)
    ensures var r := PriceText(minPrice, maxPrice);
      |r| >= 5 && r[|r| - 5..] == " FCFA" && Text.Includes(r, minPrice) && Text.Includes(r, maxPrice)
  {
    var r := PriceText(minPrice, maxPrice);
    if minPrice != "" && maxPrice != "" {
      assert r[0..] == r;
      assert maxPrice <= r[|minPrice| + 1..];
    } else if minPrice != "" {
      assert minPrice <= r[12..];
      assert maxPrice <= r[0..];
    } else {
      assert minPrice <= r[0..];
      assert maxPrice <= r[8..];
    }
  }

  /** `condition.replace('_', ' ')`: a string pattern, so only the first underscore becomes a space. */
  function ConditionText(condition: string): (r: string)
    ensures |r| == |condition|
  {
    Text.ReplaceFirstLength(condition, "_", " ");
    Text.ReplaceFirst(condition, "_", " ")
  }

  /** The first underscore becomes a space and any later one stays. */
  lemma ConditionTextFirstOnly(a: string, b: string)
    requires '_' !in a
    ensures ConditionText(a + "_" + b) == a + " " + b
  {
    Text.ReplaceFirstSplice(a, "_", " ", b);
  }

  /** A condition without an underscore is shown as it is. */
  lemma ConditionTextPlain(condition: string)
    requires '_' !in condition
    ensures ConditionText(condition) == condition
  {
    forall i | 0 <= i < |condition|
      ensures !("_" <= condition[i..])
    {
      assert condition[i..][0] == condition[i];
    }
    Text.ReplaceFirstAbsent(condition, "_", " ");
  }

  /** No filter is active. */
  predicate NoFilter(q: SearchQuery)
  {
    q.query == "" && q.category == "" && q.minPrice == "" && q.maxPrice == "" &&
    q.condition == "" && LocationFilter(q) == ""
  }

  /** The `filters` array of `getSearchSummary`: the quoted query, the category, the price part, the
      condition and the location, each only when set, in that order. */
  function SummaryParts(q: SearchQuery): (r: seq<string>)
    ensures |r| == 0 <==> NoFilter(q)
    ensures forall i :: 0 <= i < |r| ==> r[i] != ""
    ensures q.query != "" ==> r[0] == "\"" + q.query + "\""
    ensures LocationFilter(q) != "" ==> r[|r| - 1] == LocationFilter(q)
  {
    var quoted := if q.query != "" then ["\"" + q.query + "\""] else [];
    var category := if q.category != "" then [q.category] else [];
    var price := if q.minPrice != "" || q.maxPrice != "" then [PriceText(q.minPrice, q.maxPrice)] else [];
    var condition := if q.condition != "" then [ConditionText(q.condition)] else [];
    var location := if LocationFilter(q) != "" then [LocationFilter(q)] else [];
    quoted + category + price + condition + location
  }

  /** `getSearchSummary`: the parts joined by a bullet, or the fallback text when there is none. */
  function SearchSummary(q: SearchQuery): (r: string)
    ensures NoFilter(q) ==> r == Fallback
    ensures !NoFilter(q) ==> |r| > 0
  {
    var parts := SummaryParts(q);
    if |parts| > 0 then Text.Join(parts, Separator) else Fallback
  }

  /** The summary is the fallback text exactly when no filter is set, or when the one filter that is
      set reads the same as the fallback text. */
  lemma SummaryIsFallback(q: SearchQuery)
    ensures SearchSummary(q) == Fallback <==> NoFilter(q) || SummaryParts(q) == [Fallback]
  {
    var parts := SummaryParts(q);
    if |parts| >= 2 {
      var r := SearchSummary(q);
      assert r == parts[0] + Separator + Text.Join(parts[1..], Separator);
      assert r[|parts[0]| + 1] == '\U{2022}';
      assert '\U{2022}' !in Fallback;
    }
  }

  /** So "no filter" is not the only way to get the fallback text: a category named like it gives
      it too. */
  lemma CategoryNamedLikeFallback(q: SearchQuery)
    requires q == SearchQuery("", Fallback, "", "", "", "", "")
    ensures SearchSummary(q) == Fallback && !NoFilter(q)
  {
    assert SummaryParts(q) == [Fallback];
  }

  /** With a keyword, the summary starts with it in quotes. */
  lemma SummaryLeadsWithQuery(q: SearchQuery)
    requires q.query != ""
    ensures "\"" + q.query + "\"" <= SearchSummary(q)
  {
    var parts := SummaryParts(q);
    if |parts| >= 2 {
      assert SearchSummary(q) == parts[0] + (Separator + Text.Join(parts[1..], Separator));
    }
  }
}
