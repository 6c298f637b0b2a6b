/** The listing wizard of src/pages/PublishPage.jsx: five steps (category, details, photos, review,
    done), the photo list kept beside its preview URLs, the details validator and the publish action.
    Network uploads and the insert are inputs; preview URLs come from a given function. */
module Publish {
  import opened Wrappers
  import Seqs
  import Text
  import opened Listing

  predicate Oversized(f: File) { !WithinSizeLimit(f) }

  function FileName(f: File): string { f.name }

  /** The files `handleFileChange` adds to `current` from a selection: those within the size limit, in
      their order, cut to the room left under `MAX_IMAGES`. */
  function FilesToAdd(current: seq<File>, selected: seq<File>): seq<File>
  {
    Seqs.SliceTo(Seqs.Filter(selected, WithinSizeLimit), MaxImages - |current|)
  }

  /** Added files are within the limit, come from the selection in their original order, and all of
      them are kept when there is room. */
  lemma FilesToAddKept(current: seq<File>, selected: seq<File>)
    ensures forall f :: f in FilesToAdd(current, selected) ==> WithinSizeLimit(f) && f in selected
    ensures FilesToAdd(current, selected) <= Seqs.Filter(selected, WithinSizeLimit)
    ensures |current| + |Seqs.Filter(selected, WithinSizeLimit)| <= MaxImages ==>
              FilesToAdd(current, selected) == Seqs.Filter(selected, WithinSizeLimit)
  {
    var valid := Seqs.Filter(selected, WithinSizeLimit);
    var added := FilesToAdd(current, selected);
    forall f | f in added
      ensures WithinSizeLimit(f) && f in selected
    {
      var i :| 0 <= i < |added| && added[i] == f;
      assert valid[i] == f;
    }
    if |current| + |valid| <= MaxImages {
      assert |added| == |valid|;
    }
  }

  /** The photo list never grows past `MAX_IMAGES`, and it grows by the number of files added. */
  lemma FilesToAddCapped(current: seq<File>, selected: seq<File>)
    requires |current| <= MaxImages
    ensures |current| + |FilesToAdd(current, selected)| <= MaxImages
    ensures |current| == MaxImages ==> FilesToAdd(current, selected) == []
  {
  }

  /** The checks of `validateStep2`, first failure first. */
  datatype DetailsCheck =
    | DetailsOk
    | TitleMissing
    | TitleTooShort
    | DescriptionMissing
    | DescriptionTooShort
    | PriceInvalid
    | LocationMissing

  /** The details form of step 2. */
  datatype DetailsForm = DetailsForm(
    title: string, description: string, price: PriceInput,
    isNegotiable: bool, isFree: bool, phone: string, allowWhatsapp: bool)

  /** A price fails when the field is empty or reads as a number at most 0; NaN is not `<= 0`. */
  predicate PriceRejected(price: PriceInput)
  {
    price.text == "" || (price.parsed.Some? && price.parsed.value <= 0.0)
  }

  /** `validateStep2`: the first failing check, or `DetailsOk` when all pass. */
  function ValidateDetails(form: DetailsForm, location: Option<Location>): (r: DetailsCheck)
    ensures r == DetailsOk <==>
              |Text.Trim(form.title)| >= TitleMinLength &&
              |Text.Trim(form.description)| >= DescriptionMinLength &&
              (form.isFree || !PriceRejected(form.price)) &&
              location.Some?
    ensures r == TitleMissing <==> Text.Trim(form.title) == []
    ensures r == TitleTooShort <==> 0 < |Text.Trim(form.title)| < TitleMinLength
    ensures r == DescriptionMissing <==>
              |Text.Trim(form.title)| >= TitleMinLength && Text.Trim(form.description) == []
    ensures r == DescriptionTooShort <==>
              |Text.Trim(form.title)| >= TitleMinLength && 0 < |Text.Trim(form.description)| < DescriptionMinLength
    ensures r == PriceInvalid <==>
              |Text.Trim(form.title)| >= TitleMinLength && |Text.Trim(form.description)| >= DescriptionMinLength &&
              !form.isFree && PriceRejected(form.price)
    ensures r == LocationMissing <==>
              |Text.Trim(form.title)| >= TitleMinLength && |Text.Trim(form.description)| >= DescriptionMinLength &&
              (form.isFree || !PriceRejected(form.price)) && location.None?
    ensures r.DescriptionMissing? || r.DescriptionTooShort? || r.PriceInvalid? || r.LocationMissing? ==>
              |Text.Trim(form.title)| >= TitleMinLength
    ensures r.PriceInvalid? || r.LocationMissing? ==> |Text.Trim(form.description)| >= DescriptionMinLength
    ensures r.PriceInvalid? ==> !form.isFree && PriceRejected(form.price)
    ensures r.LocationMissing? ==> (form.isFree || !PriceRejected(form.price)) && location.None?
  {
    var title := Text.Trim(form.title);
    var description := Text.Trim(form.description);
    if title == [] then TitleMissing
    else if |title| < TitleMinLength then TitleTooShort
    else if description == [] then DescriptionMissing
    else if |description| < DescriptionMinLength then DescriptionTooShort
    else if !form.isFree && PriceRejected(form.price) then PriceInvalid
    else if location.None? then LocationMissing
    else DetailsOk
  }

  /** A title of only blanks is missing, however long it is. */
  lemma BlankTitleMissing(form: DetailsForm, location: Option<Location>)
    requires forall i :: 0 <= i < |form.title| ==> Text.IsJsSpace(form.title[i])
    ensures ValidateDetails(form, location) == TitleMissing
  {
    Text.TrimEmpty(form.title);
  }

  /** The row inserted into `annonces`. */
  datatype ListingRow = ListingRow(
    title: string, description: string, category: string, subcategory: string,
    price: Option<real>, currency: string, isNegotiable: bool, isFree: bool,
    images: seq<string>, status: string, location: Location)

  /** What `handlePublish` leads to. */
  datatype PublishOutcome = NotSignedIn | NoLocation | PublishFailed | Published(row: ListingRow)

  predicate AllUploaded(uploads: seq<Option<string>>)
  {
    forall i :: 0 <= i < |uploads| ==> uploads[i].Some?
  }

  function UploadedUrls(uploads: seq<Option<string>>): (r: seq<string>)
    requires AllUploaded(uploads)
    ensures |r| == |uploads|
    ensures forall i :: 0 <= i < |r| ==> uploads[i] == Some(r[i])
  {
    if uploads == [] then [] else [uploads[0].value] + UploadedUrls(uploads[1..])
  }

  /** `handlePublish`, with the upload result of each photo and the insert's success as inputs: sign-in
      and city are checked first; any failed upload, a missing category or a failed insert fails the
      whole publication; otherwise the row carries the uploaded URLs in photo order. */
  function PublishResult(
    signedIn: bool, location: Option<Location>, category: Option<string>, subcategory: string,
    form: DetailsForm, currency: string, uploads: seq<Option<string>>, insertOk: bool): (r: PublishOutcome)
    ensures !signedIn ==> r == NotSignedIn
    ensures signedIn && location.None? ==> r == NoLocation
    ensures r.Published? <==> signedIn && location.Some? && AllUploaded(uploads) && category.Some? && insertOk
    ensures r.Published? ==>
              |r.row.images| == |uploads| &&
              (forall i :: 0 <= i < |uploads| ==> uploads[i] == Some(r.row.images[i])) &&
              r.row.price == StoredPrice(form.isFree, form.price) &&
              r.row.category == category.value && r.row.subcategory == subcategory &&
              r.row.title == form.title && r.row.description == form.description &&
              Some(r.row.location) == location && r.row.status == "active" &&
              r.row.currency == currency && r.row.isNegotiable == form.isNegotiable &&
              r.row.isFree == form.isFree
  {
    if !signedIn then NotSignedIn
    else if location.None? then NoLocation
    else if !AllUploaded(uploads) || category.None? || !insertOk then PublishFailed
    else Published(ListingRow(
      form.title, form.description, category.value, subcategory,
      StoredPrice(form.isFree, form.price), currency, form.isNegotiable, form.isFree,
      UploadedUrls(uploads), "active", location.value))
  }

  /** A free listing is published at price 0, whatever the price field holds. */
  lemma FreeListingPriceZero(
    location: Location, category: string, subcategory: string,
    form: DetailsForm, currency: string, uploads: seq<Option<string>>)
    requires form.isFree && AllUploaded(uploads)
    ensures PublishResult(true, Some(location), Some(category), subcategory, form, currency, uploads, true).row.price
            == Some(0.0)
  {
  }

  /** "Publier une autre annonce" as written: the photos are cleared but their preview URLs are kept. */
  function ResetPhotosAsWritten(files: seq<File>, previews: seq<string>): (r: (seq<File>, seq<string>))
    ensures r.0 == [] && r.1 == previews
  {
    ([], previews)
  }

  /** After the reset as written, the next photo added is shown with the old preview of a photo that is
      no longer in the list. */
  lemma ResetAsWrittenShowsStalePreview()
    ensures var old_ := File("ancienne.jpg", 1000);
            var new_ := File("nouvelle.jpg", 2000);
            var reset := ResetPhotosAsWritten([old_], ["blob:ancienne"]);
            var files := reset.0 + FilesToAdd(reset.0, [new_]);
            var previews := reset.1 + Seqs.Map(FilesToAdd(reset.0, [new_]), (f: File) => "blob:" + f.name);
            |files| == 1 && |previews| == 2 && files[0] == new_ && previews[0] == "blob:ancienne"
  {
    var new_ := File("nouvelle.jpg", 2000);
    assert Seqs.Filter([new_], WithinSizeLimit) == [new_];
  }

  /** The reset the page evidently intends: photos and previews cleared together. */
  function ResetPhotos(files: seq<File>, previews: seq<string>): (r: (seq<File>, seq<string>))
    ensures |r.0| == |r.1| == 0
  {
    ([], [])
  }

  /** The wizard's state: one field per state hook of the page. */
  class PublishWizard {
    var step: int
    var loading: bool
    var category: Option<string>
    var subcategory: string
    var files: seq<File>
    var filePreviewUrls: seq<string>
    var location: Option<Location>
    var form: DetailsForm
    var currency: string

    /** Steps run from 1 to 5; the photo list is capped and lines up with its previews. */
    predicate Valid()
      reads this
    {
      1 <= step <= 5 && |files| == |filePreviewUrls| && |files| <= MaxImages
    }

    constructor()
      ensures Valid()
      ensures step == 1 && !loading && category.None? && subcategory == ""
      ensures files == [] && filePreviewUrls == [] && location.None? && currency == "CAD"
      ensures form == DetailsForm("", "", PriceInput("", None), false, false, "", false)
    {
      step := 1;
      loading := false;
      category := None;
      subcategory := "";
      files := [];
      filePreviewUrls := [];
      location := None;
      form := DetailsForm("", "", PriceInput("", None), false, false, "", false);
      currency := "CAD";
    }

    /** `handleCategorySelect`: choosing a category always clears the subcategory. */
    method SelectCategory(name: string)
      requires Valid()
      modifies this
      ensures Valid()
      ensures category == Some(name) && subcategory == ""
      ensures step == old(step) && files == old(files) && filePreviewUrls == old(filePreviewUrls)
      ensures location == old(location) && form == old(form) && loading == old(loading) && currency == old(currency)
    {
      category := Some(name);
      subcategory := "";
    }

    /** "Suivant" on step 1, enabled only once a category and a subcategory are chosen. */
    method NextFromCategory()
      requires Valid() && step == 1
      modifies this
      ensures Valid()
      ensures step == (if category.Some? && subcategory != "" then 2 else 1)
      ensures category == old(category) && subcategory == old(subcategory) && files == old(files)
      ensures filePreviewUrls == old(filePreviewUrls) && location == old(location) && form == old(form)
      ensures loading == old(loading) && currency == old(currency)
    {
      if category.Some? && subcategory != "" {
        step := 2;
      }
    }

    /** "Suivant" on step 2 moves on only when the details pass `validateStep2`. */
    method NextFromDetails() returns (check: DetailsCheck)
      requires Valid() && step == 2
      modifies this
      ensures Valid()
      ensures check == ValidateDetails(form, location)
      ensures step == (if check == DetailsOk then 3 else 2)
      ensures category == old(category) && subcategory == old(subcategory) && files == old(files)
      ensures filePreviewUrls == old(filePreviewUrls) && location == old(location) && form == old(form)
      ensures loading == old(loading) && currency == old(currency)
    {
      check := ValidateDetails(form, location);
      if check == DetailsOk {
        step := 3;
      }
    }

    /** The unconditional moves: back from 2, 3 and 4, and on from the photos step to the review. */
    method GoTo(target: int)
      requires Valid()
      requires (step == 2 && target == 1) || (step == 3 && (target == 2 || target == 4)) || (step == 4 && target == 3)
      modifies this
      ensures Valid()
      ensures step == (if old(step) == 4 && loading then 4 else target)
      ensures category == old(category) && subcategory == old(subcategory) && files == old(files)
      ensures filePreviewUrls == old(filePreviewUrls) && location == old(location) && form == old(form)
      ensures loading == old(loading) && currency == old(currency)
    {
      // The back button of the review step is disabled while publishing.
      if !(step == 4 && loading) {
        step := target;
      }
    }

    /** `handleFileChange`: keeps the selected files within the size limit, adds as many as there is
        room for, with a preview each, and reports the names of the oversized ones. */
    method HandleFileChange(selected: seq<File>, preview: File -> string) returns (rejected: seq<string>)
      requires Valid()
      modifies this
      ensures Valid()
      ensures files == old(files) + FilesToAdd(old(files), selected)
      ensures filePreviewUrls == old(filePreviewUrls) + Seqs.Map(FilesToAdd(old(files), selected), preview)
      ensures rejected == Seqs.Map(Seqs.Filter(selected, Oversized), FileName)
      ensures step == old(step) && category == old(category) && subcategory == old(subcategory)
      ensures location == old(location) && form == old(form) && loading == old(loading) && currency == old(currency)
    {
      var valid;
      valid, rejected := SplitBySize(selected);
      var toAdd := Seqs.SliceTo(valid, MaxImages - |files|);
      FilesToAddCapped(files, selected);
      files := files + toAdd;
      filePreviewUrls := filePreviewUrls + Seqs.Map(toAdd, preview);
    }

    /** `removeFile(index)`: drops that index from the photos and from the previews. */
    method RemoveFile(index: int)
      requires Valid()
      modifies this
      ensures Valid()
      ensures files == Seqs.WithoutIndex(old(files), index)
      ensures filePreviewUrls == Seqs.WithoutIndex(old(filePreviewUrls), index)
      ensures step == old(step) && category == old(category) && subcategory == old(subcategory)
      ensures location == old(location) && form == old(form) && loading == old(loading) && currency == old(currency)
    {
      files := Seqs.WithoutIndex(files, index);
      filePreviewUrls := Seqs.WithoutIndex(filePreviewUrls, index);
    }

    /** "Publier" on the review step. The guards leave the state alone; otherwise the loading flag ends
        cleared and a successful publication moves to the final step. */
    method PublishListing(signedIn: bool, uploads: seq<Option<string>>, insertOk: bool) returns (outcome: PublishOutcome)
      requires Valid() && step == 4
      requires |uploads| == |files|
      modifies this
      ensures Valid()
      ensures outcome == PublishResult(signedIn, location, category, subcategory, form, currency, uploads, insertOk)
      ensures step == (if outcome.Published? then 5 else 4)
      ensures loading == (if outcome.NotSignedIn? || outcome.NoLocation? then old(loading) else false)
      ensures category == old(category) && subcategory == old(subcategory) && files == old(files)
      ensures filePreviewUrls == old(filePreviewUrls) && location == old(location) && form == old(form)
      ensures currency == old(currency)
    {
      outcome := PublishResult(signedIn, location, category, subcategory, form, currency, uploads, insertOk);
      if outcome.NotSignedIn? || outcome.NoLocation? {
        return;
      }
      loading := true;
      if outcome.Published? {
        step := 5;
      }
      loading := false;
    }

    /** "Publier une autre annonce": back to step 1 with no category and no photos. The previews are
        cleared with the photos, as `ResetPhotos` intends. */
    method PublishAnother()
      requires Valid()
      modifies this
      ensures Valid()
      ensures step == 1 && category.None?
      ensures (files, filePreviewUrls) == ResetPhotos(old(files), old(filePreviewUrls))
      ensures subcategory == old(subcategory) && location == old(location) && form == old(form)
      ensures loading == old(loading) && currency == old(currency)
    {
      step := 1;
      category := None;
      files, filePreviewUrls := ResetPhotos(files, filePreviewUrls).0, ResetPhotos(files, filePreviewUrls).1;
    }
  }

  /** One more file moves to exactly one of the two lists. */
  lemma SplitStep(selected: seq<File>, i: nat)
    requires i < |selected|
    ensures Seqs.Filter(selected[..i + 1], WithinSizeLimit) ==
              Seqs.Filter(selected[..i], WithinSizeLimit) + (if WithinSizeLimit(selected[i]) then [selected[i]] else [])
    ensures Seqs.Map(Seqs.Filter(selected[..i + 1], Oversized), FileName) ==
              Seqs.Map(Seqs.Filter(selected[..i], Oversized), FileName) + (if WithinSizeLimit(selected[i]) then [] else [selected[i].name])
  {
    var f := selected[i];
    assert selected[..i + 1] == selected[..i] + [f];
    Seqs.FilterSnoc(selected[..i], f, WithinSizeLimit);
    Seqs.FilterSnoc(selected[..i], f, Oversized);
    Seqs.MapAppend(Seqs.Filter(selected[..i], Oversized), if Oversized(f) then [f] else [], FileName);
    assert Seqs.Map([f], FileName) == [f.name];
  }

  /** Before the first file, both lists are empty. */
  lemma SplitStart(selected: seq<File>)
    ensures Seqs.Filter(selected[..0], WithinSizeLimit) == []
    ensures Seqs.Map(Seqs.Filter(selected[..0], Oversized), FileName) == []
  {
    assert selected[..0] == [];
  }

  /** The `forEach` of `handleFileChange`: splits a selection into the files within the size limit and
      the names of the others, both in selection order. */
  method SplitBySize(selected: seq<File>) returns (valid: seq<File>, invalid: seq<string>)
    ensures valid == Seqs.Filter(selected, WithinSizeLimit)
    ensures invalid == Seqs.Map(Seqs.Filter(selected, Oversized), FileName)
  {
    valid, invalid := [], [];
    var i := 0;
    SplitStart(selected);
    while i < |selected|
      invariant 0 <= i <= |selected|
      invariant valid == Seqs.Filter(selected[..i], WithinSizeLimit)
      invariant invalid == Seqs.Map(Seqs.Filter(selected[..i], Oversized), FileName)
    {
      var f := selected[i];
      SplitStep(selected, i);
      if WithinSizeLimit(f) {
        valid := valid + [f];
      } else {
        invalid := invalid + [f.name];
      }
      i := i + 1;
    }
    assert selected[..i] == selected;
  }
}
