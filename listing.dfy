/** Entities and limits shared by the publishing, editing and sign-up pages: the file limits and form
    minimums of src/constants/index.js, a selected city, and the price rule used on insert and update. */
module Listing {
  import opened Wrappers

  /** `FILE_LIMITS.MAX_IMAGES`: the most images a listing carries. */
  const MaxImages: nat := 6
  /** `FILE_LIMITS.MAX_IMAGE_SIZE`: 5 MiB, in bytes. */
  const MaxImageSize: nat := 5 * 1024 * 1024
  /** `VALIDATION.TITLE_MIN_LENGTH` and `VALIDATION.DESCRIPTION_MIN_LENGTH`. */
  const TitleMinLength: nat := 10
  const DescriptionMinLength: nat := 50

  /** A file picked in the browser: only its name and its size in bytes matter here. */
  datatype File = File(name: string, size: nat)

  /** The city object produced by the city autocomplete and spread into inserted rows. */
  datatype Location = Location(city: string, country: string, latitude: real, longitude: real)

  /** The price field: its text and the number `parseFloat` reads from it (`None` when that is NaN). */
  datatype PriceInput = PriceInput(text: string, parsed: Option<real>)

  /** `is_free ? 0 : parseFloat(price) || null`: a free listing costs 0; otherwise the parsed number,
      where NaN and 0, both falsy, become null. */
  function StoredPrice(isFree: bool, price: PriceInput): (r: Option<real>)
    ensures isFree ==> r == Some(0.0)
    ensures !isFree ==> (r.Some? <==> price.parsed.Some? && price.parsed.value != 0.0)
    ensures !isFree && r.Some? ==> r == price.parsed
  {
    if isFree then Some(0.0)
    else if price.parsed.Some? && price.parsed.value != 0.0 then price.parsed
    else None
  }

  /** The file-input and size test used by both listing pages: `size <= MAX_IMAGE_SIZE`. */
  predicate WithinSizeLimit(f: File)
  {
    f.size <= MaxImageSize
  }
}
