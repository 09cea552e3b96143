/** The public-visibility policy for listings (lib/listing-visibility.ts). */
module ListingVisibility {
  import opened Wrappers
  import opened JsText

  /** The grace window: a closed listing stays visible for one day after it closes. */
  const ONE_DAY_MS: int := 24 * 60 * 60 * 1000

  /** The fields the policy reads; `None` is null or undefined. Timestamps are strings. */
  datatype VisibilityRecord = VisibilityRecord(
    status: Option<string>,
    closedAt: Option<string>,
    updatedAt: Option<string>)

  /** `Date.parse`: milliseconds since the epoch, or None for NaN. */
  type DateParser = string -> Option<int>

  predicate HasClosedStatus(r: VisibilityRecord) {
    Lower(OrDefault(r.status, "")) == "closed"
  }

  /** `closed_at || updated_at`, or None when neither is a non-empty string. */
  function CloseTime(r: VisibilityRecord): (t: Option<string>)
    ensures t.Some? ==> t.value != ""
    ensures r.closedAt.Some? && r.closedAt.value != "" ==> t == r.closedAt
  {
    if r.closedAt.Some? && r.closedAt.value != "" then r.closedAt
    else if r.updatedAt.Some? && r.updatedAt.value != "" then r.updatedAt
    else None
  }

  /** The instant a listing closed, when it has a close time that parses. */
  function ClosedInstant(r: VisibilityRecord, parse: DateParser): Option<int> {
    if CloseTime(r).None? then None else parse(CloseTime(r).value)
  }

  /** isClosedListingVisible: closed, with a parsable close time, and at most one day ago. */
  predicate IsClosedListingVisible(r: VisibilityRecord, now: int, parse: DateParser)
  {
    if !HasClosedStatus(r) then false
    else
      var closedAt := CloseTime(r);
      if closedAt.None? then false
      else
        var closedTs := parse(closedAt.value);
        if closedTs.None? then false
        else now - closedTs.value <= ONE_DAY_MS
  }

  /** isListingPubliclyVisible: drafts never, closed listings within the grace window, all else. */
  predicate IsListingPubliclyVisible(r: VisibilityRecord, now: int, parse: DateParser)
  {
    var status := Lower(OrDefault(r.status, "active"));
    if status == "draft" then false
    else if status == "closed" then IsClosedListingVisible(r, now, parse)
    else true
  }

  /** isClosedListingForDisplay. */
  predicate IsClosedListingForDisplay(r: VisibilityRecord, now: int, parse: DateParser)
  {
    HasClosedStatus(r) && IsClosedListingVisible(r, now, parse)
  }

  /** A closed listing is visible exactly until one day past its close instant. */
  lemma ClosedVisibleIffWithinWindow(r: VisibilityRecord, now: int, parse: DateParser)
    ensures IsClosedListingVisible(r, now, parse) <==>
      HasClosedStatus(r) && ClosedInstant(r, parse).Some? &&
      now <= ClosedInstant(r, parse).value + 86_400_000
  {
  }

  /** The boundary is inclusive: visible at exactly 24h after closing, hidden 1 ms later. */
  lemma GraceBoundary(r: VisibilityRecord, parse: DateParser, closedTs: int)
    requires HasClosedStatus(r) && ClosedInstant(r, parse) == Some(closedTs)
    ensures IsClosedListingVisible(r, closedTs + 86_400_000, parse)
    ensures !IsClosedListingVisible(r, closedTs + 86_400_000 + 1, parse)
    ensures IsListingPubliclyVisible(r, closedTs + 86_400_000, parse)
    ensures !IsListingPubliclyVisible(r, closedTs + 86_400_000 + 1, parse)
  {
  }

  /** Visibility of a closed listing only decreases with time; a future close time is visible. */
  lemma VisibilityMonotone(r: VisibilityRecord, parse: DateParser, now: int, earlier: int)
    requires earlier <= now
    ensures IsClosedListingVisible(r, now, parse) ==> IsClosedListingVisible(r, earlier, parse)
    ensures IsListingPubliclyVisible(r, now, parse) ==> IsListingPubliclyVisible(r, earlier, parse)
    ensures HasClosedStatus(r) && ClosedInstant(r, parse).Some? && ClosedInstant(r, parse).value >= now ==>
      IsClosedListingVisible(r, now, parse)
  {
  }

  /** Without a close time that parses, a closed listing is hidden (fail closed). */
  lemma MissingOrUnparsableIsHidden(r: VisibilityRecord, now: int, parse: DateParser)
    requires CloseTime(r).None? || parse(CloseTime(r).value).None?
    ensures !IsClosedListingVisible(r, now, parse)
    ensures HasClosedStatus(r) ==> !IsListingPubliclyVisible(r, now, parse)
  {
  }

  /** closed_at wins over updated_at whenever it is a non-empty string. */
  lemma ClosedAtTakesPrecedence(r: VisibilityRecord, now: int, parse: DateParser, other: Option<string>)
    requires r.closedAt.Some? && r.closedAt.value != ""
    ensures IsClosedListingVisible(r, now, parse) == IsClosedListingVisible(r.(updatedAt := other), now, parse)
  {
  }

  /** Only the status "closed" (any letter case) can be visible through the grace window. */
  lemma OnlyClosedStatusQualifies(r: VisibilityRecord, now: int, parse: DateParser)
    requires !HasClosedStatus(r)
    ensures !IsClosedListingVisible(r, now, parse)
    ensures !IsClosedListingForDisplay(r, now, parse)
  {
  }

  /** Drafts, in any letter case, are hidden whatever their timestamps say. */
  lemma DraftNeverVisible(r: VisibilityRecord, now: int, parse: DateParser)
    requires r.status.Some? && Lower(r.status.value) == "draft"
    ensures !IsListingPubliclyVisible(r, now, parse)
  {
    assert |r.status.value| == |Lower(r.status.value)| == 5;
    assert OrDefault(r.status, "active") == r.status.value;
    assert Lower(OrDefault(r.status, "active")) == "draft";
  }

  /** A missing or empty status counts as "active"; any status but draft and closed is shown. */
  lemma OtherStatusesVisible(r: VisibilityRecord, now: int, parse: DateParser)
    requires r.status.None? || r.status.value == "" ||
      (Lower(r.status.value) != "draft" && Lower(r.status.value) != "closed")
    ensures IsListingPubliclyVisible(r, now, parse)
  {
    LowerOfActive();
  }

  lemma LowerOfActive()
    ensures Lower("active") == "active"
  {
    assert forall i :: 0 <= i < 6 ==> Lower("active")[i] == "active"[i];
  }

  /** A closed status defers to the grace-window rule. */
  lemma ClosedDefersToGraceWindow(r: VisibilityRecord, now: int, parse: DateParser)
    requires HasClosedStatus(r)
    ensures IsListingPubliclyVisible(r, now, parse) == IsClosedListingVisible(r, now, parse)
  {
  }

  /** The display predicate coincides with the grace-window rule and implies public visibility. */
  lemma ForDisplayMeansVisible(r: VisibilityRecord, now: int, parse: DateParser)
    ensures IsClosedListingForDisplay(r, now, parse) == IsClosedListingVisible(r, now, parse)
    ensures IsClosedListingForDisplay(r, now, parse) ==> IsListingPubliclyVisible(r, now, parse)
  {
  }
}
