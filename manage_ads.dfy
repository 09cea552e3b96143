/**
 * The host dashboard's data logic (components/ManageAdsPanel.tsx): the slug generator,
 * the create payload, the update diff with its pending-edit bookkeeping, and the split
 * of the host's listings into active and closed ones.
 */
module ManageAds {
  import opened Wrappers
  import opened JsText
  import opened JsValues
  import opened Sequences

  // ---------------------------------------------------------------------------
  // generateSlug
  // ---------------------------------------------------------------------------

  predicate IsSlugChar(c: char) {
    'a' <= c <= 'z' || '0' <= c <= '9'
  }

  /** `.replace(/[^a-z0-9]+/g, '-')`: every maximal run of other characters becomes one "-". */
  function CollapseRuns(s: string): string {
    if s == [] then [] else
    var c := CollapseRuns(s[..|s| - 1]);
    var last := s[|s| - 1];
    if IsSlugChar(last) then c + [last]
    else if c != [] && c[|c| - 1] == '-' then c
    else c + "-"
  }

  /** `.replace(/^-+/, '')`. */
  function DropLeadingDashes(s: string): (r: string)
    ensures |r| <= |s| && r == s[|s| - |r|..]
    ensures forall i :: 0 <= i < |s| - |r| ==> s[i] == '-'
    ensures r == [] || r[0] != '-'
  {
    if s != [] && s[0] == '-' then DropLeadingDashes(s[1..]) else s
  }

  /** `.replace(/-+$/, '')`. */
  function DropTrailingDashes(s: string): (r: string)
    ensures |r| <= |s| && r == s[..|r|]
    ensures forall i :: |r| <= i < |s| ==> s[i] == '-'
    ensures r == [] || r[|r| - 1] != '-'
  {
    if s != [] && s[|s| - 1] == '-' then DropTrailingDashes(s[..|s| - 1]) else s
  }

  /** The part of the slug before the clock suffix. */
  function SlugBody(value: string): string {
    DropTrailingDashes(DropLeadingDashes(CollapseRuns(Lower(value))))
  }

  /** `s.slice(-4)`. */
  function LastFour(s: string): (r: string)
    ensures |r| == if |s| < 4 then |s| else 4
    ensures EndsWith(s, r)
  {
    if |s| <= 4 then s else s[|s| - 4..]
  }

  /** generateSlug; `nowMs` is `Date.now()`. */
  function GenerateSlug(value: string, nowMs: nat): string {
    SlugBody(value) + "-" + LastFour(NatToString(nowMs))
  }

  /** A well-formed slug body: lower-case letters, digits and single inner dashes. */
  predicate WellFormedBody(s: string) {
    && (forall i :: 0 <= i < |s| ==> IsSlugChar(s[i]) || s[i] == '-')
    && (forall i :: 0 <= i < |s| - 1 ==> !(s[i] == '-' && s[i + 1] == '-'))
    && (s == [] || (s[0] != '-' && s[|s| - 1] != '-'))
  }

  predicate RunsCollapsed(s: string) {
    && (forall i :: 0 <= i < |s| ==> IsSlugChar(s[i]) || s[i] == '-')
    && (forall i :: 0 <= i < |s| - 1 ==> !(s[i] == '-' && s[i + 1] == '-'))
  }

  lemma {:induction false} CollapseRunsShape(s: string)
    ensures RunsCollapsed(CollapseRuns(s))
  {
    if s != [] {
      CollapseRunsShape(s[..|s| - 1]);
    }
  }

  lemma RunsCollapsedSlice(s: string, i: nat, j: nat)
    requires RunsCollapsed(s) && i <= j <= |s|
    ensures RunsCollapsed(s[i..j])
  {
    assert forall k :: 0 <= k < j - i ==> s[i..j][k] == s[i + k];
  }

  /** The body holds only [a-z0-9-], never two dashes in a row, and no dash at either end. */
  lemma SlugBodyWellFormed(value: string)
    ensures WellFormedBody(SlugBody(value))
  {
    CollapseRunsShape(Lower(value));
    DashesTrimmed(CollapseRuns(Lower(value)));
  }

  /** Cutting the dashes off both ends of collapsed text leaves a well-formed body. */
  lemma DashesTrimmed(c: string)
    requires RunsCollapsed(c)
    ensures WellFormedBody(DropTrailingDashes(DropLeadingDashes(c)))
  {
    var a := DropLeadingDashes(c);
    RunsCollapsedSlice(c, |c| - |a|, |c|);
    var b := DropTrailingDashes(a);
    RunsCollapsedSlice(a, 0, |b|);
    if b != [] {
      assert b[0] == a[0];
    }
  }

  /** The generated slug is the body, a dash and the last four digits of the clock. */
  lemma SlugShape(value: string, nowMs: nat)
    ensures var slug := GenerateSlug(value, nowMs);
      && slug == SlugBody(value) + "-" + LastFour(NatToString(nowMs))
      && (nowMs >= 1000 ==> |LastFour(NatToString(nowMs))| == 4)
      && AllDigits(LastFour(NatToString(nowMs)))
  {
    var digits := NatToString(nowMs);
    var tail := LastFour(digits);
    assert forall i :: 0 <= i < |tail| ==> tail[i] == digits[|digits| - |tail| + i];
    if nowMs >= 1000 {
      NatToStringLength(nowMs);
    }
  }

  lemma {:induction false} NatToStringLength(n: nat)
    ensures n >= 1000 ==> |NatToString(n)| >= 4
    ensures n >= 100 ==> |NatToString(n)| >= 3
    ensures n >= 10 ==> |NatToString(n)| >= 2
  {
    if n >= 10 {
      NatToStringLength(n / 10);
    }
  }

  lemma {:induction false} CollapseRunsOfCollapsed(s: string)
    requires RunsCollapsed(s)
    ensures CollapseRuns(s) == s
  {
    if s != [] {
      var init := s[..|s| - 1];
      RunsCollapsedSlice(s, 0, |s| - 1);
      CollapseRunsOfCollapsed(init);
      if !IsSlugChar(s[|s| - 1]) && init != [] {
        assert init[|init| - 1] != '-';
      }
      assert init + [s[|s| - 1]] == s;
    }
  }

  lemma LowerOfSlugChars(s: string)
    requires forall i :: 0 <= i < |s| ==> IsSlugChar(s[i]) || s[i] == '-'
    ensures Lower(s) == s
  {
  }

  /** Normalising a body again changes nothing: the body is a fixed point of the slug rules. */
  lemma SlugBodyIdempotent(value: string)
    ensures SlugBody(SlugBody(value)) == SlugBody(value)
  {
    var b := SlugBody(value);
    SlugBodyWellFormed(value);
    LowerOfSlugChars(b);
    CollapseRunsOfCollapsed(b);
  }

  /** A title with no letter or digit leaves an empty body, so the slug starts with the dash. */
  lemma NoAlphanumericGivesBareSuffix(value: string, nowMs: nat)
    requires forall i :: 0 <= i < |value| ==> !IsSlugChar(LowerChar(value[i]))
    ensures GenerateSlug(value, nowMs) == "-" + LastFour(NatToString(nowMs))
  {
    var lowered := Lower(value);
    assert forall i :: 0 <= i < |lowered| ==> !IsSlugChar(lowered[i]);
    NoAlphanumericCollapses(lowered);
    var collapsed := CollapseRuns(lowered);
    assert DropLeadingDashes(collapsed) == [] by {
      if collapsed == "-" {
        assert collapsed[1..] == [];
      }
    }
    assert SlugBody(value) == [];
    EmptyBodySlug(SlugBody(value), LastFour(NatToString(nowMs)));
  }

  lemma EmptyBodySlug(body: string, suffix: string)
    requires body == []
    ensures body + "-" + suffix == "-" + suffix
  {
  }

  lemma {:induction false} NoAlphanumericCollapses(s: string)
    requires forall i :: 0 <= i < |s| ==> !IsSlugChar(s[i])
    ensures CollapseRuns(s) == [] || CollapseRuns(s) == "-"
  {
    if s != [] {
      NoAlphanumericCollapses(s[..|s| - 1]);
    }
  }

  // ---------------------------------------------------------------------------
  // The create payload
  // ---------------------------------------------------------------------------

  datatype ListingType = RentType | BuyType
  datatype ListingStatus = Active | Closed | Draft

  function StatusName(s: ListingStatus): string {
    match s
    case Active => "active"
    case Closed => "closed"
    case Draft => "draft"
  }

  /** The create form; every text field is the input's string value. */
  datatype ManageForm = ManageForm(
    title: string, brand: string, model: string, year: string, bodyType: string,
    location: string, listingType: ListingType, price: string, description: string,
    status: ListingStatus)

  /** The row inserted for a new listing; `None` is null. */
  datatype CreatePayload = CreatePayload(
    title: string, brand: Option<string>, model: Option<string>, year: Option<Num>,
    description: Option<string>, images: seq<string>, slug: string, bodyType: string,
    location: string, isForRent: bool, pricePerDay: Option<int>, priceBuy: Option<int>,
    status: ListingStatus, ownerId: string)

  const DEFAULT_LOCATION: string := "Kampala, Uganda"

  /** `s.trim() || null`. */
  function TrimmedOrNull(s: string): (r: Option<string>)
    ensures r.Some? ==> r.value == Trim(s) && r.value != ""
    ensures r.None? <==> Trim(s) == ""
  {
    if Trim(s) == "" then None else Some(Trim(s))
  }

  /** `Number(price) || null`: NaN and 0 are falsy. */
  function TruthyNumber(n: Num): (r: Option<int>)
    ensures r.Some? <==> n.Fin? && n.v != 0
    ensures r.Some? ==> n == Fin(r.value)
  {
    if n.Fin? && n.v != 0 then Some(n.v) else None
  }

  /** The payload of handleCreateListing; `toNumber` is `Number(...)` on a string. */
  function BuildCreatePayload(form: ManageForm, images: seq<string>, ownerId: string,
                              toNumber: string -> Num, nowMs: nat): CreatePayload {
    CreatePayload(
      Trim(form.title), TrimmedOrNull(form.brand), TrimmedOrNull(form.model),
      if form.year != "" then Some(toNumber(form.year)) else None,
      TrimmedOrNull(form.description), images,
      CreateSlug(form.title, nowMs),
      form.bodyType,
      if form.location != "" then form.location else DEFAULT_LOCATION,
      form.listingType == RentType,
      if form.listingType == RentType then TruthyNumber(toNumber(form.price)) else None,
      if form.listingType == BuyType then TruthyNumber(toNumber(form.price)) else None,
      form.status, ownerId)
  }

  /** Exactly the price field of the chosen type can be set, and only to a non-zero number. */
  lemma CreatePayloadPrice(form: ManageForm, images: seq<string>, ownerId: string,
                           toNumber: string -> Num, nowMs: nat)
    ensures var p := BuildCreatePayload(form, images, ownerId, toNumber, nowMs);
      && (p.isForRent <==> form.listingType == RentType)
      && (p.pricePerDay.Some? ==> form.listingType == RentType)
      && (p.priceBuy.Some? ==> form.listingType == BuyType)
      && !(p.pricePerDay.Some? && p.priceBuy.Some?)
      && ((toNumber(form.price).NaN? || toNumber(form.price) == Fin(0)) ==>
            p.pricePerDay.None? && p.priceBuy.None?)
      && (toNumber(form.price).Fin? && toNumber(form.price).v != 0 ==>
            (if form.listingType == RentType then p.pricePerDay else p.priceBuy) == Some(toNumber(form.price).v))
  {
  }

  /** Defaults: the Kampala location and trimmed-or-null brand and model. */
  lemma CreatePayloadDefaults(form: ManageForm, images: seq<string>, ownerId: string,
                              toNumber: string -> Num, nowMs: nat)
    ensures var p := BuildCreatePayload(form, images, ownerId, toNumber, nowMs);
      && (form.location == "" ==> p.location == DEFAULT_LOCATION)
      && (form.location != "" ==> p.location == form.location)
      && (p.brand.None? <==> Trim(form.brand) == "")
      && (p.model.None? <==> Trim(form.model) == "")
      && p.title == Trim(form.title)
  {
  }

  /** The slug comes from the raw title, or from "listing" when the title is empty. */
  lemma CreatePayloadSlug(form: ManageForm, images: seq<string>, ownerId: string,
                          toNumber: string -> Num, nowMs: nat)
    ensures var p := BuildCreatePayload(form, images, ownerId, toNumber, nowMs);
      && (form.title == "" ==> p.slug == "listing" + "-" + LastFour(NatToString(nowMs)))
      && (form.title != "" ==> p.slug == SlugBody(form.title) + "-" + LastFour(NatToString(nowMs)))
      && (form.title != "" ==> WellFormedBody(SlugBody(form.title)))
  {
    assert BuildCreatePayload(form, images, ownerId, toNumber, nowMs).slug == CreateSlug(form.title, nowMs);
  }

  /** `form.title ? generateSlug(form.title) : generateSlug('listing')`. */
  function CreateSlug(title: string, nowMs: nat): (slug: string)
    ensures title == "" ==> slug == "listing" + "-" + LastFour(NatToString(nowMs))
    ensures title != "" ==> slug == SlugBody(title) + "-" + LastFour(NatToString(nowMs))
    ensures title != "" ==> WellFormedBody(SlugBody(title))
  {
    if title != "" then
      SlugBodyWellFormed(title);
      GenerateSlug(title, nowMs)
    else
      ListingSlug(nowMs);
      GenerateSlug("listing", nowMs)
  }

  /** The slug an untitled listing gets. */
  lemma ListingSlug(nowMs: nat)
    ensures GenerateSlug("listing", nowMs) == "listing" + "-" + LastFour(NatToString(nowMs))
  {
    ListingBody();
  }

  lemma ListingBody()
    ensures SlugBody("listing") == "listing"
  {
    assert Lower("listing") == "listing";
    assert RunsCollapsed("listing");
    CollapseRunsOfCollapsed("listing");
  }

  // ---------------------------------------------------------------------------
  // The update diff
  // ---------------------------------------------------------------------------

  /** The fields of a host's listing that a save reads. */
  datatype EditableListing = EditableListing(id: string, title: string, status: ListingStatus, isForRent: bool)

  /** An entry of the pending-edits dictionary; a field is `None` until it is edited. */
  datatype PendingEdit = PendingEdit(description: Option<string>, status: Option<ListingStatus>, price: Option<string>)

  const NO_EDITS: PendingEdit := PendingEdit(None, None, None)

  /** `isNaN(price) ? null : price`: zero is kept, unlike in the create payload. */
  function PriceValue(n: Num): (v: Value)
    ensures v == Null <==> n.NaN?
  {
    if n.NaN? then Null else Number(n)
  }

  /** The column a pending price is written to. */
  function PriceColumn(listing: EditableListing): string {
    if listing.isForRent then "price_per_day" else "price_buy"
  }

  /** The update payload a save sends for one listing and its pending edits. */
  function UpdatesPayload(listing: EditableListing, partial: PendingEdit, toNumber: string -> Num):
    (p: map<string, Value>)
    ensures p.Keys <= {"description", "status", "price_per_day", "price_buy"}
    ensures "description" in p <==> partial.description.Some?
    ensures "description" in p ==>
      p["description"] == if partial.description.value == "" then Null else Str(Trim(partial.description.value))
    ensures "status" in p <==> partial.status.Some? && partial.status.value != listing.status
    ensures "status" in p ==> p["status"] == Str(StatusName(partial.status.value))
    ensures "price_per_day" in p <==> partial.price.Some? && listing.isForRent
    ensures "price_buy" in p <==> partial.price.Some? && !listing.isForRent
    ensures partial.price.Some? ==> p[PriceColumn(listing)] == PriceValue(toNumber(partial.price.value))
  {
    WithPrice(WithStatus(WithDescription(partial), listing, partial), listing, partial, toNumber)
  }

  /** `partial.description ? partial.description.trim() : null`. */
  function DescriptionValue(d: string): Value {
    if d == "" then Null else Str(Trim(d))
  }

  /** The payload after the description step. */
  function WithDescription(partial: PendingEdit): map<string, Value> {
    if partial.description.None? then map[]
    else map["description" := DescriptionValue(partial.description.value)]
  }

  /** The payload after the status step. */
  function WithStatus(m: map<string, Value>, listing: EditableListing, partial: PendingEdit): map<string, Value> {
    if partial.status.Some? && partial.status.value != listing.status
    then m["status" := Str(StatusName(partial.status.value))] else m
  }

  /** The payload after the price step. */
  function WithPrice(m: map<string, Value>, listing: EditableListing, partial: PendingEdit,
                     toNumber: string -> Num): map<string, Value> {
    if partial.price.None? then m
    else m[PriceColumn(listing) := PriceValue(toNumber(partial.price.value))]
  }

  /** handleListingUpdate's payload, filled field by field. */
  method BuildUpdatesPayload(listing: EditableListing, partial: PendingEdit, toNumber: string -> Num)
    returns (payload: map<string, Value>)
    ensures payload == UpdatesPayload(listing, partial, toNumber)
  {
    payload := map[];
    if partial.description.Some? {
      payload := payload["description" := DescriptionValue(partial.description.value)];
    }
    ghost var afterDescription := payload;
    if partial.status.Some? && partial.status.value != listing.status {
      payload := payload["status" := Str(StatusName(partial.status.value))];
    }
    ghost var afterStatus := payload;
    if partial.price.Some? {
      var price := toNumber(partial.price.value);
      if listing.isForRent {
        payload := payload["price_per_day" := if price.NaN? then Null else Number(price)];
      } else {
        payload := payload["price_buy" := if price.NaN? then Null else Number(price)];
      }
    }
    assert afterDescription == WithDescription(partial);
    assert afterStatus == WithStatus(afterDescription, listing, partial);
    assert payload == WithPrice(afterStatus, listing, partial, toNumber);
  }

  /** An edit that only re-selects the current status produces an empty payload. */
  lemma SameStatusIsNoUpdate(listing: EditableListing, toNumber: string -> Num)
    ensures UpdatesPayload(listing, PendingEdit(None, Some(listing.status), None), toNumber) == map[]
  {
  }

  const NO_CHANGES_MESSAGE: string := "No changes detected."
  const NO_UPDATES_MESSAGE: string := "No updates to save."
  const UPDATED_MESSAGE: string := "Listing updated"

  /** The pending entry of a listing; the edit handlers spread `prev[id]`, which may be missing. */
  function Pending(updates: map<string, PendingEdit>, id: string): PendingEdit {
    if id in updates then updates[id] else NO_EDITS
  }

  /**
   * The dashboard's listing state: the host's listings, the pending edits keyed by
   * listing id, and the status message (`None` is null).
   */
  class ManageAdsPanel {
    var listings: seq<EditableListing>
    var updates: map<string, PendingEdit>
    var message: Option<string>

    constructor ()
      ensures listings == [] && updates == map[] && message == None
    {
      listings := [];
      updates := map[];
      message := None;
    }

    /** The status select's onChange. */
    method EditStatus(id: string, status: ListingStatus)
      modifies this
      ensures updates == old(updates)[id := Pending(old(updates), id).(status := Some(status))]
      ensures listings == old(listings) && message == old(message)
    {
      updates := updates[id := Pending(updates, id).(status := Some(status))];
    }

    /** The price input's onChange. */
    method EditPrice(id: string, price: string)
      modifies this
      ensures updates == old(updates)[id := Pending(old(updates), id).(price := Some(price))]
      ensures listings == old(listings) && message == old(message)
    {
      updates := updates[id := Pending(updates, id).(price := Some(price))];
    }

    /** The description textarea's onChange. */
    method EditDescription(id: string, description: string)
      modifies this
      ensures updates == old(updates)[id := Pending(old(updates), id).(description := Some(description))]
      ensures listings == old(listings) && message == old(message)
    {
      updates := updates[id := Pending(updates, id).(description := Some(description))];
    }

    /**
     * handleListingUpdate. `signedIn` is whether a user is present and `writeError` the
     * store's answer to the write; the result is the payload written, if a write happens.
     */
    method HandleListingUpdate(signedIn: bool, listing: EditableListing, toNumber: string -> Num,
                               writeError: Option<string>) returns (written: Option<map<string, Value>>)
      modifies this
      ensures listings == old(listings)
      ensures !signedIn ==> written.None? && updates == old(updates) && message == old(message)
      ensures signedIn && listing.id !in old(updates) ==>
        written.None? && updates == old(updates) && message == Some(NO_CHANGES_MESSAGE)
      ensures (signedIn && listing.id in old(updates) &&
               UpdatesPayload(listing, old(updates)[listing.id], toNumber) == map[]) ==>
        written.None? && updates == old(updates) && message == Some(NO_UPDATES_MESSAGE)
      ensures written.Some? ==>
        signedIn && listing.id in old(updates) &&
        written.value == UpdatesPayload(listing, old(updates)[listing.id], toNumber) && written.value != map[]
      ensures written.Some? && writeError.Some? ==> updates == old(updates) && message == writeError
      ensures written.Some? && writeError.None? ==>
        updates == old(updates) - {listing.id} && message == Some(UPDATED_MESSAGE)
      ensures (signedIn && listing.id in old(updates) &&
               UpdatesPayload(listing, old(updates)[listing.id], toNumber) != map[]) ==> written.Some?
    {
      written := None;
      if !signedIn {
        return;
      }
      if listing.id !in updates {
        message := Some(NO_CHANGES_MESSAGE);
        return;
      }
      var payload := BuildUpdatesPayload(listing, updates[listing.id], toNumber);
      if payload == map[] {
        message := Some(NO_UPDATES_MESSAGE);
        return;
      }
      written := Some(payload);
      if writeError.Some? {
        message := writeError;
        return;
      }
      message := Some(UPDATED_MESSAGE);
      updates := updates - {listing.id};
    }

    /** activeListings: every listing whose status is not "closed", in order. */
    function ActiveListings(): (r: seq<EditableListing>)
      reads this
      ensures forall l :: l in r <==> l in listings && l.status != Closed
    {
      FilterMembers(listings, NotClosed);
      FilterBy(listings, NotClosed)
    }

    /** closedListings: every listing whose status is "closed", in order. */
    function ClosedListings(): (r: seq<EditableListing>)
      reads this
      ensures forall l :: l in r <==> l in listings && l.status == Closed
    {
      FilterMembers(listings, IsClosed);
      FilterBy(listings, IsClosed)
    }
  }

  function NotClosed(l: EditableListing): bool {
    l.status != Closed
  }

  function IsClosed(l: EditableListing): bool {
    l.status == Closed
  }

  /** The two lists split the listings: nothing lost, nothing doubled, order kept. */
  lemma ActiveClosedPartition(listings: seq<EditableListing>)
    ensures multiset(FilterBy(listings, NotClosed)) + multiset(FilterBy(listings, IsClosed)) == multiset(listings)
    ensures |FilterBy(listings, NotClosed)| + |FilterBy(listings, IsClosed)| == |listings|
    ensures IsSubsequence(FilterBy(listings, NotClosed), listings)
    ensures IsSubsequence(FilterBy(listings, IsClosed), listings)
  {
    FilterPartition(listings, NotClosed, IsClosed);
    FilterIsSubsequence(listings, NotClosed);
    FilterIsSubsequence(listings, IsClosed);
  }
}
