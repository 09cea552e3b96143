/**
 * extract_images.py: print the distinct image URLs of the known car-press hosts, in the
 * order they appear, stopping after ten.
 */
module ExtractImagesPy {
  import opened JsText
  import opened Sequences

  const MAX_SEEN: nat := 10

  /** `'carwow' in url or 'caranddriver' in url or 'hips.hearstapps.com' in url`. */
  function PressHost(url: string): bool {
    Includes(url, "carwow") || Includes(url, "caranddriver") || Includes(url, "hips.hearstapps.com")
  }

  /** The loop: append and print each new press-host URL, and stop once ten are kept. */
  method SelectSeen(urls: seq<string>) returns (seen: seq<string>, printed: seq<string>)
    ensures seen == Take(Dedup(FilterBy(urls, PressHost)), MAX_SEEN)
    ensures printed == seen
  {
    seen := [];
    printed := [];
    var i := 0;
    while i < |urls|
      invariant 0 <= i <= |urls|
      invariant seen == Dedup(FilterBy(urls[..i], PressHost))
      invariant printed == seen
      invariant |seen| < MAX_SEEN
    {
      var url := urls[i];
      DedupFilterStep(urls, i, PressHost);
      if PressHost(url) {
        if url !in seen {
          seen := seen + [url];
          printed := printed + [url];
          if |seen| >= MAX_SEEN {
            SettledAt(urls, i, PressHost, MAX_SEEN);
            return;
          }
        }
      }
      i := i + 1;
    }
    assert urls[..i] == urls;
  }

  /** At most ten URLs are kept, each from a press host, none twice, in first-seen order. */
  lemma SeenProperties(urls: seq<string>)
    ensures var seen := Take(Dedup(FilterBy(urls, PressHost)), MAX_SEEN);
      && |seen| <= MAX_SEEN
      && NoDuplicates(seen)
      && (forall u :: u in seen ==> u in urls && PressHost(u))
      && IsSubsequence(seen, urls)
  {
    var f := FilterBy(urls, PressHost);
    var d := Dedup(f);
    var seen := Take(d, MAX_SEEN);
    DedupNoDuplicates(f);
    DedupMembers(f);
    FilterMembers(urls, PressHost);
    assert forall u :: u in seen ==> u in d;
    DedupIsSubsequence(f);
    FilterIsSubsequence(urls, PressHost);
    PrefixIsSubsequence(seen, d);
    SubsequenceTransitive(seen, d, f);
    SubsequenceTransitive(seen, f, urls);
  }
}
