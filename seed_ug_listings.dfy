/** scripts/seed-ug-listings.js: the map from the raw Ugandan market listings to `cars` rows. */
module SeedUgListings {
  import opened Wrappers
  import opened JsText

  /** The fields of a raw listing that the transform reads. */
  datatype RawListing = RawListing(
    id: string,
    listingType: string,
    make: string,
    model: string,
    year: int,
    price: int,
    location: string,
    imageUrl: Option<string>,
    description: string)

  /** A `cars` row as the seed upserts it; `None` is null. */
  datatype SeedRow = SeedRow(
    slug: string,
    title: string,
    description: string,
    pricePerDay: Option<int>,
    priceBuy: Option<int>,
    location: string,
    year: int,
    images: seq<string>,
    isForRent: bool,
    createdAt: string)

  /** `${make} ${model} ${year}`. */
  function ListingTitle(item: RawListing): (t: string)
    ensures StartsWith(t, item.make + " " + item.model + " ")
    ensures EndsWith(t, IntToString(item.year))
    ensures |t| == |item.make| + |item.model| + 2 + |IntToString(item.year)|
  {
    var t := item.make + " " + item.model + " " + IntToString(item.year);
    assert t == (item.make + " " + item.model + " ") + IntToString(item.year);
    t
  }

  /** One raw listing to one row; `now` is the shared ISO timestamp. */
  function TransformListing(item: RawListing, now: string): (row: SeedRow)
    ensures row.isForRent <==> item.listingType == "rent"
    ensures row.isForRent ==> row.pricePerDay == Some(item.price) && row.priceBuy == None
    ensures !row.isForRent ==> row.pricePerDay == None && row.priceBuy == Some(item.price)
    ensures row.slug == item.id && row.createdAt == now
    ensures row.title == ListingTitle(item)
    ensures row.description == item.description && row.location == item.location && row.year == item.year
    ensures |row.images| <= 1
    ensures row.images != [] <==> item.imageUrl.Some? && item.imageUrl.value != ""
    ensures row.images != [] ==> row.images[0] == item.imageUrl.value
  {
    var isRent := item.listingType == "rent";
    SeedRow(
      item.id,
      ListingTitle(item),
      item.description,
      if isRent then Some(item.price) else None,
      if isRent then None else Some(item.price),
      item.location,
      item.year,
      if item.imageUrl.Some? && item.imageUrl.value != "" then [item.imageUrl.value] else [],
      isRent,
      now)
  }

  /** `rawListings.map(...)`: same length and order, one row per listing. */
  function TransformListings(items: seq<RawListing>, now: string): (rows: seq<SeedRow>)
    ensures |rows| == |items|
    ensures forall i :: 0 <= i < |items| ==> rows[i] == TransformListing(items[i], now)
  {
    seq(|items|, i requires 0 <= i < |items| => TransformListing(items[i], now))
  }

  /** Every row has exactly one price column set, the one its listing type selects. */
  lemma ExactlyOnePrice(items: seq<RawListing>, now: string)
    ensures forall i :: 0 <= i < |items| ==>
      (TransformListings(items, now)[i].pricePerDay.Some? != TransformListings(items, now)[i].priceBuy.Some?)
  {
  }

  /** All rows share one creation time, and the slugs are the raw ids in order. */
  lemma SharedTimestampAndSlugs(items: seq<RawListing>, now: string)
    ensures forall i, j :: 0 <= i < |items| && 0 <= j < |items| ==>
      TransformListings(items, now)[i].createdAt == TransformListings(items, now)[j].createdAt
    ensures forall i :: 0 <= i < |items| ==> TransformListings(items, now)[i].slug == items[i].id
  {
  }

  /** Listings with distinct ids give rows with distinct slugs, so the upsert on `slug` keeps them all. */
  lemma DistinctIdsGiveDistinctSlugs(items: seq<RawListing>, now: string)
    requires forall i, j :: 0 <= i < j < |items| ==> items[i].id != items[j].id
    ensures forall i, j :: 0 <= i < j < |items| ==>
      TransformListings(items, now)[i].slug != TransformListings(items, now)[j].slug
  {
  }
}
