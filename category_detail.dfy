/** The category page of src/pages/CategoryDetailPage.jsx: the URL slug of a category name, the
    category chosen for a slug with its fallback, the name derived back from a slug, the sort order
    asked of the query, and the filter controls around the shared load-more feed. */
module CategoryDetail {
  import opened Wrappers
  import Seqs
  import Text
  import Listing
  import Pagination

  /** An entry of src/data/categories.js (icon and colour left out). */
  datatype Category = Category(name: string, subcategories: seq<string>)

  /** `name.toLowerCase().replace(/ & /g, '-').replace(/ /g, '-')`. */
  function Slug(name: string): string
  {
    Text.ReplaceAll(Text.ReplaceAll(Text.ToLower(name), " & ", "-"), " ", "-")
  }

  /** A slug has no space and no upper-case letter left. */
  lemma SlugShape(name: string)
    ensures ' ' !in Slug(name)
    ensures forall i :: 0 <= i < |Slug(name)| ==> !Text.IsUpperLatin(Slug(name)[i])
  {
    var lower := Text.ToLower(name);
    Text.ToLowerNoUpper(name);
    var once := Text.ReplaceAll(lower, " & ", "-");
    Text.ReplaceAllChars(lower, " & ", "-");
    Text.ReplaceAllChars(once, " ", "-");
    Text.ReplaceAllRemovesChar(once, ' ', "-");
    forall i | 0 <= i < |Slug(name)|
      ensures !Text.IsUpperLatin(Slug(name)[i])
    {
      var c := Slug(name)[i];
      assert c in Slug(name);
      if c in once {
        assert c in lower || c in "-";
        if c in lower {
          var j :| 0 <= j < |lower| && lower[j] == c;
        }
      }
    }
  }

  /** Lower-casing keeps a text free of spaces. */
  lemma ToLowerNoSpace(w: string)
    requires ' ' !in w
    ensures ' ' !in Text.ToLower(w)
  {
    forall i | 0 <= i < |w|
      ensures Text.ToLower(w)[i] != ' '
    {
      assert w[i] != ' ';
    }
  }

  /** A one-word name slugs to its lower case; a name of two words joined by " & " slugs to their lower
      cases joined by a single "-". */
  lemma SlugOfWords(w1: string, w2: string)
    requires ' ' !in w1 && ' ' !in w2
    ensures Slug(w1) == Text.ToLower(w1)
    ensures Slug(w1 + " & " + w2) == Text.ToLower(w1) + "-" + Text.ToLower(w2)
  {
    ToLowerNoSpace(w1);
    ToLowerNoSpace(w2);
    var l1, l2 := Text.ToLower(w1), Text.ToLower(w2);
    Text.ReplaceAllAbsent(l1, " & ", "-");
    Text.ReplaceAllAbsent(l1, " ", "-");
    Text.ToLowerAppend(w1 + " & ", w2);
    Text.ToLowerAppend(w1, " & ");
    assert Text.ToLower(" & ") == " & ";
    Text.ReplaceAllSplice(l1, " & ", "-", l2);
    Text.ReplaceAllAbsent(l2, " & ", "-");
    assert ' ' !in l1 + "-" + l2;
    Text.ReplaceAllAbsent(l1 + "-" + l2, " ", "-");
  }

  /** The position of the first category whose slug is `slug`, or the length when there is none. */
  function FirstMatch(categories: seq<Category>, slug: string): (r: nat)
    ensures r <= |categories|
    ensures forall j :: 0 <= j < r ==> Slug(categories[j].name) != slug
    ensures r < |categories| ==> Slug(categories[r].name) == slug
  {
    if categories == [] then 0
    else if Slug(categories[0].name) == slug then 0
    else 1 + FirstMatch(categories[1..], slug)
  }

  /** `categoriesData.find(...)`: the first category whose slug is `slug`. */
  function FindBySlug(categories: seq<Category>, slug: string): (r: Option<Category>)
    ensures r.None? <==> forall i :: 0 <= i < |categories| ==> Slug(categories[i].name) != slug
    ensures r.Some? ==> Slug(r.value.name) == slug && r.value == categories[FirstMatch(categories, slug)]
  {
    var i := FirstMatch(categories, slug);
    if i < |categories| then Some(categories[i]) else None
  }

  /** `word.charAt(0).toUpperCase() + word.slice(1)`. */
  function Capitalize(word: string): (r: string)
    ensures |r| == |word|
    ensures |word| > 0 ==> r[0] == Text.UpperChar(word[0]) && r[1..] == word[1..]
  {
    if word == [] then "" else [Text.UpperChar(word[0])] + word[1..]
  }

  /** The name shown for an unknown slug: the pieces between hyphens, each capitalised, joined with
      spaces, and then the first "Et" anywhere in the result turned into "&". */
  function CategoryName(slug: string): string
  {
    Text.ReplaceFirst(Text.Join(Seqs.Map(Text.Split(slug, '-'), Capitalize), " "), "Et", "&")
  }

  /** The derived name never contains a hyphen. */
  lemma CategoryNameHasNoHyphen(slug: string)
    ensures '-' !in CategoryName(slug)
  {
    var pieces := Text.Split(slug, '-');
    var words := Seqs.Map(pieces, Capitalize);
    var joined := Text.Join(words, " ");
    forall i | 0 <= i < |words|
      ensures '-' !in words[i]
    {
      assert '-' !in pieces[i];
      forall k | 0 <= k < |words[i]|
        ensures words[i][k] != '-'
      {
        assert k == 0 || words[i][k] == pieces[i][k];
      }
    }
    Text.JoinChars(words, " ");
    Text.ReplaceFirstChars(joined, "Et", "&");
  }

  /** A slug "maison-et-jardin" reads "Maison & Jardin". */
  lemma NameOfThreeWordSlug(slug: string)
    requires slug == "maison-et-jardin"
    ensures CategoryName(slug) == "Maison & Jardin"
  {
    calc {
      CategoryName(slug);
      { assert slug == "maison" + "-" + "et" + "-" + "jardin"; }
      CategoryName("maison" + "-" + "et" + "-" + "jardin");
      { ThreeWordName("maison", "et", "jardin"); }
      Text.ReplaceFirst(Capitalize("maison") + " " + Capitalize("et") + " " + Capitalize("jardin"), "Et", "&");
      { CapitalizeMaisonEtJardin(); }
      Text.ReplaceFirst("Maison " + "Et" + " Jardin", "Et", "&");
      { Text.ReplaceFirstSplice("Maison ", "Et", "&", " Jardin"); }
      "Maison " + "&" + " Jardin";
    }
  }

  lemma CapitalizeMaisonEtJardin()
    ensures Capitalize("maison") + " " + Capitalize("et") + " " + Capitalize("jardin") == "Maison " + "Et" + " Jardin"
  {
    assert Capitalize("maison") == "Maison";
    assert Capitalize("et") == "Et";
    assert Capitalize("jardin") == "Jardin";
  }

  /** The replaced "Et" is the first one anywhere, even inside a word: "etudes-et-emploi" reads
      "&udes Et Emploi". */
  lemma NameReplacesInsideWord(slug: string)
    requires slug == "etudes-et-emploi"
    ensures CategoryName(slug) == "&udes Et Emploi"
  {
    calc {
      CategoryName(slug);
      { assert slug == "etudes" + "-" + "et" + "-" + "emploi"; }
      CategoryName("etudes" + "-" + "et" + "-" + "emploi");
      { ThreeWordName("etudes", "et", "emploi"); }
      Text.ReplaceFirst(Capitalize("etudes") + " " + Capitalize("et") + " " + Capitalize("emploi"), "Et", "&");
      { CapitalizeEtudesEtEmploi(); }
      Text.ReplaceFirst("" + "Et" + "udes Et Emploi", "Et", "&");
      { Text.ReplaceFirstSplice("", "Et", "&", "udes Et Emploi"); }
      "" + "&" + "udes Et Emploi";
    }
  }

  lemma CapitalizeEtudesEtEmploi()
    ensures Capitalize("etudes") + " " + Capitalize("et") + " " + Capitalize("emploi") == "" + "Et" + "udes Et Emploi"
  {
    assert Text.UpperChar('e') == 'E';
    assert Capitalize("etudes") == "Etudes" by { assert "etudes"[1..] == "tudes"; }
    assert Capitalize("et") == "Et" by { assert "et"[1..] == "t"; }
    assert Capitalize("emploi") == "Emploi" by { assert "emploi"[1..] == "mploi"; }
  }

  /** The derived name of a three-piece slug. */
  lemma ThreeWordName(a: string, b: string, c: string)
    requires '-' !in a && '-' !in b && '-' !in c
    ensures CategoryName(a + "-" + b + "-" + c) ==
              Text.ReplaceFirst(Capitalize(a) + " " + Capitalize(b) + " " + Capitalize(c), "Et", "&")
  {
    ThreeWords(a, b, c);
    JoinThree(Capitalize(a), Capitalize(b), Capitalize(c));
  }

  lemma JoinThree(a: string, b: string, c: string)
    ensures Text.Join([a, b, c], " ") == a + " " + b + " " + c
  {
    assert [a, b, c][1..] == [b, c];
    assert [b, c][1..] == [c];
  }

  lemma ThreeWords(a: string, b: string, c: string)
    requires '-' !in a && '-' !in b && '-' !in c
    ensures Seqs.Map(Text.Split(a + "-" + b + "-" + c, '-'), Capitalize) == [Capitalize(a), Capitalize(b), Capitalize(c)]
  {
    assert a + "-" + b + "-" + c == a + ['-'] + (b + ['-'] + c);
    Text.SplitSplice(a, '-', b + ['-'] + c);
    Text.SplitSplice(b, '-', c);
    Text.SplitAbsent(c, '-');
  }

  /** `categoryInfo || { name: categoryName, subcategories: [] }`. */
  function ResolveCategory(categories: seq<Category>, slug: string): (r: Category)
    ensures FindBySlug(categories, slug).Some? ==> r == FindBySlug(categories, slug).value && Slug(r.name) == slug
    ensures FindBySlug(categories, slug).None? ==> r == Category(CategoryName(slug), [])
  {
    var found := FindBySlug(categories, slug);
    if found.Some? then found.value else Category(CategoryName(slug), [])
  }

  /** The page finds every category listed before it whose slug no earlier entry shares. */
  lemma ResolveFindsListed(categories: seq<Category>, i: nat)
    requires i < |categories|
    requires forall j :: 0 <= j < i ==> Slug(categories[j].name) != Slug(categories[i].name)
    ensures ResolveCategory(categories, Slug(categories[i].name)) == categories[i]
  {
    var k := FirstMatch(categories, Slug(categories[i].name));
    assert k <= i;
    assert i <= k;
  }

  /** The column and direction of the query's ordering. */
  datatype Order = Order(column: string, ascending: bool)

  /** The `switch (sortBy)`: price ascending or descending on request, newest first otherwise, which
      covers 'recent', 'relevant' and any other value. */
  function SortOrder(sortBy: string): (r: Order)
    ensures r.column == "price" <==> sortBy == "price-asc" || sortBy == "price-desc"
    ensures r.column == "price" ==> (r.ascending <==> sortBy == "price-asc")
    ensures r.column != "price" ==> r == Order("created_at", false)
  {
    if sortBy == "price-asc" then Order("price", true)
    else if sortBy == "price-desc" then Order("price", false)
    else Order("created_at", false)
  }

  /** The page's filter controls, around the feed of listings of this category. */
  class CategoryBrowser<T> {
    var sortBy: string
    var selectedCity: string
    var cityInputValue: string
    var minPrice: string
    var maxPrice: string
    const feed: Pagination.Feed<T>

    constructor()
      ensures sortBy == "recent" && selectedCity == "" && cityInputValue == "" && minPrice == "" && maxPrice == ""
      ensures fresh(feed) && feed.pageSize == Pagination.DefaultPageSize
      ensures feed.items == [] && feed.page == 0 && feed.hasMore && feed.loading && !feed.loadingMore
    {
      sortBy := "recent";
      selectedCity := "";
      cityInputValue := "";
      minPrice := "";
      maxPrice := "";
      feed := new Pagination.Feed(Pagination.DefaultPageSize);
    }

    /** `handleResetFilters`: city, its input and the price bounds cleared, newest first, page 0 and more
        assumed to come; the listings shown stay until the next fetch. */
    method ResetFilters()
      modifies this, feed
      ensures selectedCity == "" && cityInputValue == "" && minPrice == "" && maxPrice == "" && sortBy == "recent"
      ensures feed.page == 0 && feed.hasMore
      ensures feed.items == old(feed.items) && feed.loading == old(feed.loading)
      ensures feed.loadingMore == old(feed.loadingMore)
    {
      selectedCity := "";
      cityInputValue := "";
      minPrice := "";
      maxPrice := "";
      sortBy := "recent";
      feed.ResetPaging();
    }

    /** `handleCitySelect`: only a location with a non-empty city is taken; the input then reads
        "city, country". */
    method CitySelect(location: Option<Listing.Location>)
      modifies this
      ensures location.Some? && location.value.city != "" ==>
                selectedCity == location.value.city &&
                cityInputValue == location.value.city + ", " + location.value.country
      ensures !(location.Some? && location.value.city != "") ==>
                selectedCity == old(selectedCity) && cityInputValue == old(cityInputValue)
      ensures sortBy == old(sortBy) && minPrice == old(minPrice) && maxPrice == old(maxPrice)
    {
      if location.Some? && location.value.city != "" {
        selectedCity := location.value.city;
        cityInputValue := location.value.city + ", " + location.value.country;
      }
    }
  }
}
