/**
 * The state helpers of components/CarDetailLayout.tsx: booking-day selection and its
 * batch count, the gallery index, the month window, the compare-tray normalisation,
 * the feature list and the two-step "add to tray".
 */
module CarDetail {
  import opened Wrappers
  import opened JsText
  import opened Sequences
  import opened CompareTray

  // ---------------------------------------------------------------------------
  // Booking days
  // ---------------------------------------------------------------------------

  /** The number of adjacent pairs of selected days (day numbers, sorted) more than a day apart. */
  function Breaks(days: seq<int>): nat
  {
    if |days| < 2 then 0
    else Breaks(days[..|days| - 1]) + (if days[|days| - 1] - days[|days| - 2] > 1 then 1 else 0)
  }

  /** The number of separate booking runs: none for no days, else one more than the breaks. */
  function BatchCount(days: seq<int>): nat {
    if days == [] then 0 else 1 + Breaks(days)
  }

  /** countSelectionBatches, on the sorted selection given as day numbers. */
  method CountSelectionBatches(days: seq<int>) returns (batches: nat)
    ensures batches == BatchCount(days)
  {
    if |days| == 0 {
      return 0;
    }
    batches := 1;
    var index := 1;
    while index < |days|
      invariant 1 <= index <= |days|
      invariant batches == 1 + Breaks(days[..index])
    {
      var diff := days[index] - days[index - 1];
      assert days[..index + 1][..index] == days[..index];
      if diff > 1 {
        batches := batches + 1;
      }
      index := index + 1;
    }
    assert days[..index] == days;
  }

  lemma {:induction false} BreaksBound(days: seq<int>)
    ensures |days| >= 1 ==> Breaks(days) <= |days| - 1
  {
    if |days| >= 2 {
      BreaksBound(days[..|days| - 1]);
    }
  }

  /** There are never more runs than selected days. */
  lemma BatchCountAtMostDays(days: seq<int>)
    ensures BatchCount(days) <= |days|
    ensures days != [] ==> BatchCount(days) >= 1
  {
    BreaksBound(days);
  }

  predicate Consecutive(days: seq<int>) {
    forall i :: 0 < i < |days| ==> days[i] == days[i - 1] + 1
  }

  lemma {:induction false} ConsecutiveHasNoBreaks(days: seq<int>)
    requires Consecutive(days)
    ensures Breaks(days) == 0
  {
    if |days| >= 2 {
      ConsecutiveHasNoBreaks(days[..|days| - 1]);
    }
  }

  /** A run of consecutive days is one batch. */
  lemma ConsecutiveIsOneBatch(days: seq<int>)
    requires days != [] && Consecutive(days)
    ensures BatchCount(days) == 1
  {
    ConsecutiveHasNoBreaks(days);
  }

  /** Two selections separated by a gap of more than a day count their runs separately. */
  lemma {:induction false} SeparatedRunsAdd(a: seq<int>, b: seq<int>)
    requires a != [] && b != [] && b[0] - a[|a| - 1] > 1
    ensures BatchCount(a + b) == BatchCount(a) + BatchCount(b)
    decreases |b|
  {
    var ab := a + b;
    if |b| == 1 {
      assert ab[..|ab| - 1] == a;
    } else {
      var b' := b[..|b| - 1];
      assert ab[..|ab| - 1] == a + b';
      SeparatedRunsAdd(a, b');
      assert b[..|b| - 1] == b';
    }
  }

  /** The handleDayClick updater: a disabled day is ignored, a selected one removed, else appended. */
  function ToggleDay(prev: seq<string>, iso: string, disabled: bool): (r: seq<string>)
    ensures disabled ==> r == prev
    ensures !disabled ==> (iso in r <==> iso !in prev)
    ensures forall d :: d != iso ==> (d in r <==> d in prev)
    ensures !disabled && iso !in prev ==> r == prev + [iso]
    ensures !disabled && iso in prev ==> IsSubsequence(r, prev)
    ensures !disabled ==> forall d :: d != iso ==> multiset(r)[d] == multiset(prev)[d]
  {
    if disabled then prev
    else if iso in prev then
      FilterMembers(prev, NotDay(iso));
      FilterIsSubsequence(prev, NotDay(iso));
      FilterCounts(prev, NotDay(iso));
      FilterBy(prev, NotDay(iso))
    else prev + [iso]
  }

  function NotDay(iso: string): string -> bool {
    (e: string) => e != iso
  }

  /** The selection never holds a day twice. */
  lemma ToggleKeepsDistinct(prev: seq<string>, iso: string, disabled: bool)
    requires NoDuplicates(prev)
    ensures NoDuplicates(ToggleDay(prev, iso, disabled))
  {
    if !disabled && iso in prev {
      FilterNoDuplicates(prev, NotDay(iso));
    }
  }

  /** Selecting a new day and clicking it again restores the selection. */
  lemma ToggleTwiceRestores(prev: seq<string>, iso: string)
    requires iso !in prev
    ensures ToggleDay(ToggleDay(prev, iso, false), iso, false) == prev
  {
    var once := prev + [iso];
    assert once[..|once| - 1] == prev;
    FilterKeepsAll(prev, NotDay(iso));
  }

  /** totalPrice: the day rate times the number of selected nights. */
  function TotalPrice(pricePerDay: int, selected: seq<string>): int {
    pricePerDay * |selected|
  }

  /** Each click on an enabled day adds or removes exactly one night's price. */
  lemma ToggleChangesTotalByOneNight(prev: seq<string>, iso: string, pricePerDay: int)
    requires NoDuplicates(prev)
    ensures TotalPrice(pricePerDay, ToggleDay(prev, iso, false)) ==
      TotalPrice(pricePerDay, prev) + (if iso in prev then -pricePerDay else pricePerDay)
  {
    if iso in prev {
      FilterRemovesOne(prev, iso, NotDay(iso));
    }
  }

  // ---------------------------------------------------------------------------
  // Gallery
  // ---------------------------------------------------------------------------

  /** JavaScript `a % n` for n > 0: the remainder takes the sign of `a`. */
  function JsRem(a: int, n: int): (r: int)
    requires n > 0
    ensures -n < r < n
    ensures a >= 0 ==> r == a % n
  {
    if a >= 0 then a % n else -((-a) % n)
  }

  /** galleryImages: the listing's images, or the placeholder when there are none. */
  function GalleryImages(images: Option<seq<string>>): (g: seq<string>)
    ensures |g| >= 1
    ensures images.Some? && images.value != [] ==> g == images.value
  {
    if images.Some? && |images.value| > 0 then images.value else ["/placeholder-car.jpg"]
  }

  /** The "previous" button: `(prev - 1 + n) % n`. */
  function GalleryPrev(index: int, n: int): int
    requires n >= 1
  {
    JsRem(index - 1 + n, n)
  }

  /** The "next" button: `(prev + 1) % n`. */
  function GalleryNext(index: int, n: int): int
    requires n >= 1
  {
    JsRem(index + 1, n)
  }

  /** Both buttons keep a valid index valid, and each undoes the other. */
  lemma GalleryStaysInRange(index: int, n: int)
    requires n >= 1 && 0 <= index < n
    ensures 0 <= GalleryPrev(index, n) < n && 0 <= GalleryNext(index, n) < n
    ensures GalleryNext(GalleryPrev(index, n), n) == index
    ensures GalleryPrev(GalleryNext(index, n), n) == index
  {
    WrapOnce(index - 1 + n, n);
    WrapOnce(index + 1, n);
    var p := GalleryPrev(index, n);
    var q := GalleryNext(index, n);
    WrapOnce(p + 1, n);
    WrapOnce(q - 1 + n, n);
  }

  /** A value below twice the modulus wraps around at most once. */
  lemma WrapOnce(a: int, n: int)
    requires n >= 1 && 0 <= a < 2 * n
    ensures JsRem(a, n) == if a < n then a else a - n
  {
    var q, r := a / n, a % n;
    assert a == q * n + r && 0 <= r < n;
    assert q >= 2 ==> q * n >= 2 * n;
    assert q < 0 ==> q * n <= -n;
    assert q == 0 || q == 1;
  }

  // ---------------------------------------------------------------------------
  // Month window (months counted as integers)
  // ---------------------------------------------------------------------------

  const MAX_ADVANCE_MONTHS: int := 5

  predicate InWindow(month: int, earliest: int) {
    earliest <= month <= earliest + MAX_ADVANCE_MONTHS
  }

  /** The handleMonthChange updater: a step out of the window keeps the current month. */
  function MonthChange(prev: int, direction: int, earliest: int): int {
    var next := prev + direction;
    if direction < 0 && next < earliest then prev
    else if direction > 0 && next > earliest + MAX_ADVANCE_MONTHS then prev
    else next
  }

  /** From a month inside the window, a step is taken exactly when it stays inside. */
  lemma MonthChangeStaysInWindow(prev: int, direction: int, earliest: int)
    requires InWindow(prev, earliest)
    ensures MonthChange(prev, direction, earliest) ==
      if InWindow(prev + direction, earliest) then prev + direction else prev
    ensures InWindow(MonthChange(prev, direction, earliest), earliest)
  {
  }

  function CanPrevMonth(current: int, earliest: int): bool {
    current > earliest
  }

  function CanNextMonth(current: int, latest: int): bool {
    current < latest
  }

  /** The arrows are enabled exactly when a one-month step would move. */
  lemma ArrowsMatchMonthChange(current: int, earliest: int)
    requires InWindow(current, earliest)
    ensures CanPrevMonth(current, earliest) <==> MonthChange(current, -1, earliest) != current
    ensures CanNextMonth(current, earliest + MAX_ADVANCE_MONTHS) <==> MonthChange(current, 1, earliest) != current
  {
  }

  // ---------------------------------------------------------------------------
  // normalizeListing
  // ---------------------------------------------------------------------------

  /** The car fields the helpers read; `None` is null or undefined. */
  datatype CarRecord = CarRecord(
    id: Option<string>, slug: Option<string>, title: Option<string>,
    brand: Option<string>, model: Option<string>, year: Option<int>,
    location: Option<string>, images: Option<seq<string>>,
    pricePerDaySnake: Option<int>, pricePerDayCamel: Option<int>,
    ratingTenths: Option<int>, instantBookable: bool, instantBook: bool)

  const SHORT_TITLE_LENGTH: nat := 15

  /** A title longer than 15 characters is cut to 15 and marked with an ellipsis. */
  function ShortTitle(title: string): (r: string)
    ensures |title| <= SHORT_TITLE_LENGTH ==> r == title
    ensures |title| > SHORT_TITLE_LENGTH ==>
      |r| == SHORT_TITLE_LENGTH + 1 && r[..SHORT_TITLE_LENGTH] <= title && r[SHORT_TITLE_LENGTH] == '…'
  {
    if |title| > SHORT_TITLE_LENGTH then title[..SHORT_TITLE_LENGTH] + "…" else title
  }

  /** `car.title || \`${brand} ${model}\`.trim() || 'Rental'`. */
  function DisplayTitle(car: CarRecord): (t: string)
    ensures t != ""
  {
    var fromParts := Trim(OrDefault(car.brand, "") + " " + OrDefault(car.model, ""));
    OrDefault(car.title, if fromParts != "" then fromParts else "Rental")
  }

  /** `price_per_day ?? pricePerDay ?? 0`. */
  function DayPrice(car: CarRecord): int {
    if car.pricePerDaySnake.Some? then car.pricePerDaySnake.value
    else if car.pricePerDayCamel.Some? then car.pricePerDayCamel.value
    else 0
  }

  /** normalizeListing; `freshId` is the random UUID or clock-based id the source draws. */
  function NormalizeListing(car: CarRecord, freshId: string): CompareItem {
    var identifier := OrDefault(car.id, OrDefault(car.slug, freshId));
    var title := DisplayTitle(car);
    var firstImage := if car.images.Some? && |car.images.value| > 0 then Some(car.images.value[0]) else None;
    CompareItem(identifier, title, ShortTitle(title), OrDefault(car.slug, OrDefault(car.id, identifier)),
                OrDefault(firstImage, "/placeholder-car.jpg"), DayPrice(car))
  }

  /** The identifier prefers id, then slug, then the freshId id; the slug prefers slug, then the identifier. */
  lemma NormalizedIdentity(car: CarRecord, freshId: string)
    ensures var item := NormalizeListing(car, freshId);
      && (car.id.Some? && car.id.value != "" ==> item.id == car.id.value)
      && (OrDefault(car.id, "") == "" && car.slug.Some? && car.slug.value != "" ==> item.id == car.slug.value)
      && (OrDefault(car.id, "") == "" && OrDefault(car.slug, "") == "" ==> item.id == freshId)
      && item.slug == OrDefault(car.slug, item.id)
  {
  }

  /** Brand and model joined by a space need no trimming when neither has space at its outer end. */
  lemma JoinedNamesTrimmed(brand: string, model: string)
    requires brand != "" && model != "" && !IsSpace(brand[0]) && !IsSpace(model[|model| - 1])
    ensures Trim(brand + " " + model) == brand + " " + model
  {
    var joined := brand + " " + model;
    assert joined[0] == brand[0] && joined[|joined| - 1] == model[|model| - 1];
    assert TrimStart(joined) == joined;
    assert TrimEnd(joined) == joined;
  }

  /** The title falls back to brand and model, then to "Rental", and is never empty. */
  lemma NormalizedTitle(car: CarRecord, freshId: string)
    ensures var item := NormalizeListing(car, freshId);
      && item.title != ""
      && (OrDefault(car.title, "") != "" ==> item.title == car.title.value)
      && (OrDefault(car.title, "") == "" && OrDefault(car.brand, "") == "" && OrDefault(car.model, "") == "" ==>
            item.title == "Rental")
      && (OrDefault(car.title, "") == "" && OrDefault(car.brand, "") != "" && OrDefault(car.model, "") != "" &&
          !IsSpace(car.brand.value[0]) && !IsSpace(car.model.value[|car.model.value| - 1]) ==>
            item.title == car.brand.value + " " + car.model.value)
      && item.shortTitle == ShortTitle(item.title)
  {
    if OrDefault(car.title, "") == "" && OrDefault(car.brand, "") != "" && OrDefault(car.model, "") != "" &&
       !IsSpace(car.brand.value[0]) && !IsSpace(car.model.value[|car.model.value| - 1]) {
      JoinedNamesTrimmed(car.brand.value, car.model.value);
    }
    if OrDefault(car.title, "") == "" && OrDefault(car.brand, "") == "" && OrDefault(car.model, "") == "" {
      assert OrDefault(car.brand, "") + " " + OrDefault(car.model, "") == " ";
      TrimEmptyIff(" ");
    }
  }

  // ---------------------------------------------------------------------------
  // buildFeatures
  // ---------------------------------------------------------------------------

  const FIXED_FEATURES: seq<string> := ["Comprehensive insurance", "Roadside support", "Sanitized interior"]

  /** A JavaScript number is truthy when it is present and not zero. */
  predicate NumberTruthy(n: Option<int>) {
    n.Some? && n.value != 0
  }

  /** `rating.toFixed(1)`, for a rating held in tenths. */
  function FixedOne(tenths: int): string {
    var m := if tenths < 0 then -tenths else tenths;
    (if tenths < 0 then "-" else "") + NatToString(m / 10) + "." + [DigitChar(m % 10)]
  }

  /** Each optional label buildFeatures may push, in push order. */
  function OptionalLabels(car: CarRecord): seq<Option<string>> {
    [ if OrDefault(car.brand, "") != "" && OrDefault(car.model, "") != ""
        then Some(car.brand.value + " " + car.model.value) else None,
      if NumberTruthy(car.year) then Some(IntToString(car.year.value) + " model") else None,
      if OrDefault(car.location, "") != "" then Some(car.location.value) else None,
      if NumberTruthy(car.ratingTenths) then Some("Rating " + FixedOne(car.ratingTenths.value)) else None,
      if car.instantBookable || car.instantBook then Some("Instant reservation") else None ]
  }

  /** The text of one label as a list: empty when the label is absent. */
  function PresentText(l: Option<string>): seq<string> {
    if l.Some? then [l.value] else []
  }

  /** The labels buildFeatures pushes, in push order, before duplicates are removed. */
  function FeatureCandidates(car: CarRecord): (c: seq<string>)
    ensures |c| >= 3 && c[|c| - 3..] == FIXED_FEATURES
  {
    var labels := OptionalLabels(car);
    PresentText(labels[0]) + PresentText(labels[1]) + PresentText(labels[2]) + PresentText(labels[3]) +
      PresentText(labels[4]) + FIXED_FEATURES
  }

  /** buildFeatures: push each present label, then keep first occurrences only. */
  method BuildFeatures(car: CarRecord) returns (features: seq<string>)
    ensures features == Dedup(FeatureCandidates(car))
  {
    ghost var labels := OptionalLabels(car);
    var pushed: seq<string> := [];
    if OrDefault(car.brand, "") != "" && OrDefault(car.model, "") != "" {
      pushed := pushed + [car.brand.value + " " + car.model.value];
    }
    assert pushed == PresentText(labels[0]);
    if NumberTruthy(car.year) {
      pushed := pushed + [IntToString(car.year.value) + " model"];
    }
    assert pushed == PresentText(labels[0]) + PresentText(labels[1]);
    if OrDefault(car.location, "") != "" {
      pushed := pushed + [car.location.value];
    }
    assert pushed == PresentText(labels[0]) + PresentText(labels[1]) + PresentText(labels[2]);
    if NumberTruthy(car.ratingTenths) {
      pushed := pushed + ["Rating " + FixedOne(car.ratingTenths.value)];
    }
    assert pushed == PresentText(labels[0]) + PresentText(labels[1]) + PresentText(labels[2]) +
      PresentText(labels[3]);
    if car.instantBookable || car.instantBook {
      pushed := pushed + ["Instant reservation"];
    }
    assert pushed == PresentText(labels[0]) + PresentText(labels[1]) + PresentText(labels[2]) +
      PresentText(labels[3]) + PresentText(labels[4]);
    pushed := pushed + FIXED_FEATURES;
    features := Dedup(pushed);
  }

  /** The feature list has no repeats, loses no label and always holds the three fixed ones. */
  lemma FeaturesDistinctAndComplete(car: CarRecord)
    ensures NoDuplicates(Dedup(FeatureCandidates(car)))
    ensures forall f :: f in Dedup(FeatureCandidates(car)) <==> f in FeatureCandidates(car)
    ensures forall f :: f in FIXED_FEATURES ==> f in Dedup(FeatureCandidates(car))
  {
    var c := FeatureCandidates(car);
    DedupNoDuplicates(c);
    DedupMembers(c);
    forall f | f in FIXED_FEATURES ensures f in c {
      var k :| 0 <= k < 3 && FIXED_FEATURES[k] == f;
      assert c[|c| - 3..][k] == f;
    }
  }

  /** Deduplication keeps the candidates' first-occurrence order. */
  lemma FeaturesInFirstOccurrenceOrder(car: CarRecord)
    ensures IsSubsequence(Dedup(FeatureCandidates(car)), FeatureCandidates(car))
    ensures NoDuplicates(FeatureCandidates(car)) ==> Dedup(FeatureCandidates(car)) == FeatureCandidates(car)
    ensures forall k :: 0 <= k <= |FeatureCandidates(car)| ==>
              Dedup(FeatureCandidates(car)[..k]) <= Dedup(FeatureCandidates(car))
    ensures forall k, x :: 0 <= k <= |FeatureCandidates(car)| ==>
              (x in Dedup(FeatureCandidates(car)[..k]) <==> x in FeatureCandidates(car)[..k])
  {
    var c := FeatureCandidates(car);
    forall k | 0 <= k <= |c|
      ensures Dedup(c[..k]) <= Dedup(c)
      ensures forall x :: x in Dedup(c[..k]) <==> x in c[..k]
    {
      DedupKeepsFirstOccurrences(c, k);
    }
    DedupIsSubsequence(FeatureCandidates(car));
    if NoDuplicates(FeatureCandidates(car)) {
      DedupOfDistinct(FeatureCandidates(car));
    }
  }

  // ---------------------------------------------------------------------------
  // addToTray
  // ---------------------------------------------------------------------------

  /**
   * addToTray: queue the page's own listing first when its id is not in the tray yet,
   * then the compared listing.
   */
  method AddToTray(provider: Provider, current: CompareItem, listing: CarRecord, freshId: string)
    modifies provider
    ensures provider.tray == AddUpdate(AddUpdate(old(provider.tray), current), NormalizeListing(listing, freshId))
    ensures provider.message ==
              if RejectedAsFull(old(provider.tray), current) ||
                 RejectedAsFull(AddUpdate(old(provider.tray), current), NormalizeListing(listing, freshId))
              then TRAY_FULL_MESSAGE else old(provider.message)
  {
    var normalized := NormalizeListing(listing, freshId);
    if !HasId(provider.tray, current.id) {
      provider.AddItem(current);
    } else {
      AddExistingIsNoOp(provider.tray, current);
    }
    provider.AddItem(normalized);
  }

  /** With room for both and two new ids, the page's listing lands right before the compared one. */
  lemma CurrentQueuedBeforeCompared(tray: seq<CompareItem>, current: CompareItem, compared: CompareItem)
    requires |tray| + 2 <= MAX_COMPARE_ITEMS
    requires !HasId(tray, current.id) && !HasId(tray, compared.id) && current.id != compared.id
    ensures AddUpdate(AddUpdate(tray, current), compared) == tray + [current, compared]
  {
    AddAppends(tray, current);
    var mid := tray + [current];
    AddAppends(mid, compared);
  }

  /** addToTray keeps the tray's four-item, distinct-id invariant. */
  lemma AddToTrayPreservesInvariant(tray: seq<CompareItem>, current: CompareItem, compared: CompareItem)
    requires TrayInvariant(tray)
    ensures TrayInvariant(AddUpdate(AddUpdate(tray, current), compared))
  {
    AddPreservesInvariant(tray, current);
    AddPreservesInvariant(AddUpdate(tray, current), compared);
  }
}
