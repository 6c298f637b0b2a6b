/** The listing editor of src/pages/EditAnnoncePage.jsx: the stored image URLs, the newly picked
    files beside their previews, and the save action with its guards and one-by-one uploads. */
module EditAnnonce {
  import opened Wrappers
  import Seqs
  import Text
  import opened Listing
  import Publish

  /** `handleNewFileChange` on the lists: the whole selection is refused (`None`) when the stored
      images, the new files and the selection together exceed `MAX_IMAGES`; otherwise the files within
      the size limit are appended in order. */
  function AddNewFiles(existingCount: nat, current: seq<File>, selected: seq<File>): (r: Option<seq<File>>)
    ensures r.None? <==> existingCount + |current| + |selected| > MaxImages
    ensures r.Some? ==> r.value == current + Seqs.Filter(selected, WithinSizeLimit)
    ensures r.Some? ==> existingCount + |r.value| <= MaxImages
    ensures r.Some? ==> forall f :: f in r.value ==> f in current || (f in selected && WithinSizeLimit(f))
  {
    if existingCount + |current| + |selected| > MaxImages then None
    else Some(current + Seqs.Filter(selected, WithinSizeLimit))
  }

  /** Where a save stops. */
  datatype SaveOutcome =
    | TextMissing
    | CategoryMissing
    | LocationMissing
    | SaveFailed
    | Saved(update: ListingUpdate)

  /** The columns `handleSave` updates. */
  datatype ListingUpdate = ListingUpdate(
    title: string, description: string, category: string, subcategory: string,
    price: Option<real>, currency: string, isNegotiable: bool, isFree: bool,
    images: seq<string>, location: Location)

  /** `handleSave`, with the upload result of each new file and the update's success as inputs: title and
      description, then category and subcategory, then the city; any failed upload or a failed update
      saves nothing; otherwise the images are the kept stored URLs followed by the uploaded ones. */
  function SaveResult(
    form: Publish.DetailsForm, category: Option<string>, subcategory: string, location: Option<Location>,
    currency: string, existingImages: seq<string>, uploads: seq<Option<string>>, updateOk: bool): (r: SaveOutcome)
    ensures r == TextMissing <==> Text.Trim(form.title) == [] || Text.Trim(form.description) == []
    ensures r == CategoryMissing ==> Text.Trim(form.title) != [] && Text.Trim(form.description) != []
    ensures r == CategoryMissing <==> r != TextMissing && (category.None? || subcategory == "")
    ensures r == LocationMissing <==>
              Text.Trim(form.title) != [] && Text.Trim(form.description) != [] &&
              category.Some? && subcategory != "" && location.None?
    ensures r.Saved? <==>
              Text.Trim(form.title) != [] && Text.Trim(form.description) != [] &&
              category.Some? && subcategory != "" && location.Some? &&
              Publish.AllUploaded(uploads) && updateOk
    ensures r.Saved? ==>
              |r.update.images| == |existingImages| + |uploads| &&
              r.update.images[..|existingImages|] == existingImages &&
              (forall i :: 0 <= i < |uploads| ==> uploads[i] == Some(r.update.images[|existingImages| + i])) &&
              r.update.price == StoredPrice(form.isFree, form.price) &&
              r.update.category == category.value && Some(r.update.location) == location &&
              r.update.title == form.title && r.update.description == form.description &&
              r.update.subcategory == subcategory && r.update.currency == currency &&
              r.update.isNegotiable == form.isNegotiable && r.update.isFree == form.isFree
  {
    if Text.Trim(form.title) == [] || Text.Trim(form.description) == [] then TextMissing
    else if category.None? || subcategory == "" then CategoryMissing
    else if location.None? then LocationMissing
    else if !Publish.AllUploaded(uploads) || !updateOk then SaveFailed
    else
      var images := existingImages + Publish.UploadedUrls(uploads);
      assert images[..|existingImages|] == existingImages;
      Saved(ListingUpdate(
        form.title, form.description, category.value, subcategory,
        StoredPrice(form.isFree, form.price), currency, form.isNegotiable, form.isFree,
        images, location.value))
  }

  /** The URLs uploaded before the first failed upload, in file order. */
  function UploadedBeforeFailure(uploads: seq<Option<string>>): (r: seq<string>)
    ensures |r| <= |uploads|
    ensures forall i :: 0 <= i < |r| ==> uploads[i] == Some(r[i])
    ensures |r| < |uploads| ==> uploads[|r|].None?
  {
    if uploads == [] || uploads[0].None? then []
    else [uploads[0].value] + UploadedBeforeFailure(uploads[1..])
  }

  /** Every upload succeeds exactly when the uploaded URLs cover all files, and then they are the URLs
      the parallel upload of the publish page would give. */
  lemma {:induction false} UploadedAll(uploads: seq<Option<string>>)
    ensures |UploadedBeforeFailure(uploads)| == |uploads| <==> Publish.AllUploaded(uploads)
    ensures Publish.AllUploaded(uploads) ==> UploadedBeforeFailure(uploads) == Publish.UploadedUrls(uploads)
    decreases |uploads|
  {
    if uploads != [] && uploads[0].Some? {
      UploadedAll(uploads[1..]);
      if Publish.AllUploaded(uploads) {
        assert Publish.AllUploaded(uploads[1..]);
      }
    }
  }

  /** The URLs before the first failure are the only list of URLs that the uploads agree with and that
      stops at a failure or at the end. */
  lemma {:induction false} UploadedBeforeFailureUnique(uploads: seq<Option<string>>, urls: seq<string>)
    requires |urls| <= |uploads|
    requires forall i :: 0 <= i < |urls| ==> uploads[i] == Some(urls[i])
    requires |urls| < |uploads| ==> uploads[|urls|].None?
    ensures UploadedBeforeFailure(uploads) == urls
    decreases |urls|
  {
    if urls != [] {
      UploadedBeforeFailureUnique(uploads[1..], urls[1..]);
    }
  }

  /** The `for (const file of newFiles)` loop: uploads one file at a time and stops at the first error.
      `attempts` is the number of uploads made, the failed one included. */
  method UploadInOrder(uploads: seq<Option<string>>) returns (urls: seq<string>, attempts: nat)
    ensures urls == UploadedBeforeFailure(uploads)
    ensures attempts == if |urls| < |uploads| then |urls| + 1 else |urls|
  {
    urls := [];
    attempts := 0;
    while attempts < |uploads|
      invariant 0 <= attempts <= |uploads|
      invariant |urls| == attempts
      invariant forall i :: 0 <= i < attempts ==> uploads[i] == Some(urls[i])
    {
      var result := uploads[attempts];
      if result.None? {
        UploadedBeforeFailureUnique(uploads, urls);
        attempts := attempts + 1;
        return;
      }
      urls := urls + [result.value];
      attempts := attempts + 1;
    }
    UploadedBeforeFailureUnique(uploads, urls);
  }

  /** The editor's state: one field per state hook of the page. */
  class ListingEditor {
    var existingImages: seq<string>
    var newFiles: seq<File>
    var newFilePreviewUrls: seq<string>
    var category: Option<string>
    var subcategory: string
    var location: Option<Location>
    var form: Publish.DetailsForm
    var currency: string
    var saving: bool

    /** The new files line up with their previews. */
    predicate Valid()
      reads this
    {
      |newFiles| == |newFilePreviewUrls|
    }

    /** The editor once the stored listing is loaded. */
    constructor(images: seq<string>, category: Option<string>, subcategory: string,
                location: Option<Location>, form: Publish.DetailsForm, currency: string)
      ensures Valid()
      ensures existingImages == images && newFiles == [] && newFilePreviewUrls == []
      ensures this.category == category && this.subcategory == subcategory && this.location == location
      ensures this.form == form && this.currency == currency && !saving
    {
      existingImages := images;
      newFiles := [];
      newFilePreviewUrls := [];
      this.category := category;
      this.subcategory := subcategory;
      this.location := location;
      this.form := form;
      this.currency := currency;
      saving := false;
    }

    /** `handleNewFileChange`: all or nothing against the cap, then the files within the size limit are
        appended with a preview each. */
    method HandleNewFileChange(selected: seq<File>, preview: File -> string) returns (accepted: bool)
      requires Valid()
      modifies this
      ensures Valid()
      ensures var r := AddNewFiles(|old(existingImages)|, old(newFiles), selected);
              accepted == r.Some? && (accepted ==> newFiles == r.value)
      ensures !accepted ==> newFiles == old(newFiles) && newFilePreviewUrls == old(newFilePreviewUrls)
      ensures accepted ==>
                newFilePreviewUrls == old(newFilePreviewUrls) + Seqs.Map(Seqs.Filter(selected, WithinSizeLimit), preview)
      ensures existingImages == old(existingImages) && category == old(category) && subcategory == old(subcategory)
      ensures location == old(location) && form == old(form) && currency == old(currency) && saving == old(saving)
    {
      var added := AddNewFiles(|existingImages|, newFiles, selected);
      if added.None? {
        accepted := false;
        return;
      }
      accepted := true;
      var valid := Seqs.Filter(selected, WithinSizeLimit);
      newFiles := newFiles + valid;
      newFilePreviewUrls := newFilePreviewUrls + Seqs.Map(valid, preview);
    }

    /** `removeExistingImage(index)`. */
    method RemoveExistingImage(index: int)
      requires Valid()
      modifies this
      ensures Valid()
      ensures existingImages == Seqs.WithoutIndex(old(existingImages), index)
      ensures newFiles == old(newFiles) && newFilePreviewUrls == old(newFilePreviewUrls)
      ensures category == old(category) && subcategory == old(subcategory) && location == old(location)
      ensures form == old(form) && currency == old(currency) && saving == old(saving)
    {
      existingImages := Seqs.WithoutIndex(existingImages, index);
    }

    /** `removeNewFile(index)`: drops that index from the new files and from their previews. */
    method RemoveNewFile(index: int)
      requires Valid()
      modifies this
      ensures Valid()
      ensures newFiles == Seqs.WithoutIndex(old(newFiles), index)
      ensures newFilePreviewUrls == Seqs.WithoutIndex(old(newFilePreviewUrls), index)
      ensures existingImages == old(existingImages)
      ensures category == old(category) && subcategory == old(subcategory) && location == old(location)
      ensures form == old(form) && currency == old(currency) && saving == old(saving)
    {
      newFiles := Seqs.WithoutIndex(newFiles, index);
      newFilePreviewUrls := Seqs.WithoutIndex(newFilePreviewUrls, index);
    }

    /** `handleSave`. The guards leave the state alone; past them, the saving flag ends cleared. Uploads
        happen one at a time, so `attempts` counts them up to and including the first failure. */
    method Save(uploads: seq<Option<string>>, updateOk: bool) returns (outcome: SaveOutcome, attempts: nat)
      requires Valid()
      requires |uploads| == |newFiles|
      modifies this
      ensures Valid()
      ensures outcome == SaveResult(form, category, subcategory, location, currency, existingImages, uploads, updateOk)
      ensures outcome.TextMissing? || outcome.CategoryMissing? || outcome.LocationMissing? ==>
                attempts == 0 && saving == old(saving)
      ensures !(outcome.TextMissing? || outcome.CategoryMissing? || outcome.LocationMissing?) ==>
                !saving && attempts == |UploadedBeforeFailure(uploads)| + (if Publish.AllUploaded(uploads) then 0 else 1)
      ensures existingImages == old(existingImages) && newFiles == old(newFiles)
      ensures newFilePreviewUrls == old(newFilePreviewUrls) && category == old(category)
      ensures subcategory == old(subcategory) && location == old(location) && form == old(form)
      ensures currency == old(currency)
      ensures outcome.Saved? ==> outcome.update.images == existingImages + UploadedBeforeFailure(uploads)
    {
      outcome := SaveResult(form, category, subcategory, location, currency, existingImages, uploads, updateOk);
      attempts := 0;
      if outcome.TextMissing? || outcome.CategoryMissing? || outcome.LocationMissing? {
        return;
      }
      saving := true;
      var urls;
      urls, attempts := UploadInOrder(uploads);
      UploadedAll(uploads);
      assert outcome.Saved? ==> outcome.update.images == existingImages + urls;
      saving := false;
    }
  }
}
