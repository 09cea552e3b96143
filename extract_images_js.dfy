/**
 * extract_images.js: from the image URLs found in a saved page, pick up to five distinct
 * photos from the known car-press hosts, or else the first twenty distinct URLs.
 */
module ExtractImagesJs {
  import opened JsText
  import opened Sequences

  const MAX_PRESS_PHOTOS: nat := 5
  const MAX_FALLBACK: nat := 20

  /** A press-host URL that is neither a staff headshot nor a wheel close-up. */
  function Qualifies(url: string): bool {
    (Includes(url, "carwow") || Includes(url, "caranddriver") || Includes(url, "hips.hearstapps.com")) &&
    !Includes(url, "headshots") && !Includes(url, "wheel")
  }

  /** The output: the press photos when there are any, else the fallback list cut to twenty. */
  function SelectedUrls(urls: seq<string>): seq<string> {
    var chosen := Take(Dedup(FilterBy(urls, Qualifies)), MAX_PRESS_PHOTOS);
    if chosen != [] then chosen else Take(Dedup(urls), MAX_FALLBACK)
  }

  /** The loop over the URLs, with its early exit at the fifth press photo, and the output choice. */
  method SelectCarImages(urls: seq<string>) returns (carwowUrls: seq<string>, fallbackUrls: seq<string>, output: seq<string>)
    ensures carwowUrls == Take(Dedup(FilterBy(urls, Qualifies)), MAX_PRESS_PHOTOS)
    ensures fallbackUrls <= Dedup(urls)
    ensures carwowUrls == [] ==> fallbackUrls == Dedup(urls)
    ensures output == SelectedUrls(urls)
  {
    carwowUrls := [];
    fallbackUrls := [];
    var i := 0;
    while i < |urls|
      invariant 0 <= i <= |urls|
      invariant fallbackUrls == Dedup(urls[..i])
      invariant carwowUrls == Dedup(FilterBy(urls[..i], Qualifies))
      invariant |carwowUrls| < MAX_PRESS_PHOTOS
    {
      var url := urls[i];
      DedupFilterStep(urls, i, Qualifies);
      if url !in fallbackUrls {
        fallbackUrls := fallbackUrls + [url];
      }
      assert fallbackUrls == Dedup(urls[..i + 1]);
      if Qualifies(url) {
        if url !in carwowUrls {
          carwowUrls := carwowUrls + [url];
          if |carwowUrls| >= MAX_PRESS_PHOTOS {
            SettledAt(urls, i, Qualifies, MAX_PRESS_PHOTOS);
            break;
          }
        }
      }
      assert carwowUrls == Dedup(FilterBy(urls[..i + 1], Qualifies));
      i := i + 1;
    }
    if i == |urls| {
      assert urls[..i] == urls;
    }
    output := if |carwowUrls| > 0 then carwowUrls else Take(fallbackUrls, MAX_FALLBACK);
  }

  /** At most twenty URLs come out, none twice, all taken from the page. */
  lemma SelectionBounded(urls: seq<string>)
    ensures |SelectedUrls(urls)| <= MAX_FALLBACK
    ensures NoDuplicates(SelectedUrls(urls))
    ensures forall u :: u in SelectedUrls(urls) ==> u in urls
  {
    var d := Dedup(FilterBy(urls, Qualifies));
    DedupNoDuplicates(FilterBy(urls, Qualifies));
    DedupNoDuplicates(urls);
    DedupMembers(FilterBy(urls, Qualifies));
    DedupMembers(urls);
    FilterMembers(urls, Qualifies);
    TakeKeepsDistinct(d, MAX_PRESS_PHOTOS);
    TakeKeepsDistinct(Dedup(urls), MAX_FALLBACK);
  }

  lemma TakeKeepsDistinct(s: seq<string>, n: nat)
    requires NoDuplicates(s)
    ensures NoDuplicates(Take(s, n))
    ensures forall u :: u in Take(s, n) ==> u in s
  {
  }

  /** When the page has a qualifying URL, the output is one to five qualifying URLs in first-seen order. */
  lemma PressPhotosPreferred(urls: seq<string>)
    requires exists u :: u in urls && Qualifies(u)
    ensures 1 <= |SelectedUrls(urls)| <= MAX_PRESS_PHOTOS
    ensures forall u :: u in SelectedUrls(urls) ==> Qualifies(u)
    ensures SelectedUrls(urls) <= Dedup(FilterBy(urls, Qualifies))
  {
    var u :| u in urls && Qualifies(u);
    FilterMembers(urls, Qualifies);
    DedupMembers(FilterBy(urls, Qualifies));
    var d := Dedup(FilterBy(urls, Qualifies));
    assert u in d;
    assert Take(d, MAX_PRESS_PHOTOS) != [] by {
      assert d != [];
    }
  }

  /** Without a qualifying URL, the output is the first twenty distinct URLs. */
  lemma FallbackWhenNoPressPhotos(urls: seq<string>)
    requires forall u :: u in urls ==> !Qualifies(u)
    ensures SelectedUrls(urls) == Take(Dedup(urls), MAX_FALLBACK)
  {
    FilterMembers(urls, Qualifies);
    assert FilterBy(urls, Qualifies) == [] by {
      if FilterBy(urls, Qualifies) != [] {
        assert FilterBy(urls, Qualifies)[0] in FilterBy(urls, Qualifies);
      }
    }
  }
}
