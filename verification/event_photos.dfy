/**
 * The edit screen's pending photo list: at most three URLs shown in three
 * slots, with "" standing for an empty slot, and the filter that picks the
 * photo files to delete.
 */
module EventPhotos {

  const MaxPhotos: nat := 3

  /** `pictureUrlEmptySlots`: the slots still free; together with the list they make three. */
  function PictureUrlEmptySlots(urls: seq<string>): (n: int)
    ensures n + |urls| == MaxPhotos
    ensures n == 0 <==> |urls| == MaxPhotos
  {
    MaxPhotos - |urls|
  }

  /** `itemToImageUrl`: the URL shown in slot `i`, or "" when the slot is empty. */
  function ItemToImageUrl(urls: seq<string>, i: nat): (url: string)
    ensures i < |urls| ==> url == urls[i]
    ensures i >= |urls| ==> url == ""
  {
    if i >= |urls| then "" else urls[i]
  }

  /** `appendPictureUrl`: adds a URL only while a slot is free. */
  function AppendPictureUrl(urls: seq<string>, url: string): (r: seq<string>)
    ensures |urls| < MaxPhotos ==> r == urls + [url]
    ensures |urls| >= MaxPhotos ==> r == urls
    ensures |urls| <= MaxPhotos ==> |r| <= MaxPhotos
  {
    if |urls| < MaxPhotos then urls + [url] else urls
  }

  /** Appending to a list with room fills exactly the first empty slot. */
  lemma AppendFillsFirstEmptySlot(urls: seq<string>, url: string)
    requires |urls| < MaxPhotos
    ensures PictureUrlEmptySlots(AppendPictureUrl(urls, url)) == PictureUrlEmptySlots(urls) - 1
    ensures ItemToImageUrl(AppendPictureUrl(urls, url), |urls|) == url
    ensures forall i: nat | i < |urls| ::
              ItemToImageUrl(AppendPictureUrl(urls, url), i) == ItemToImageUrl(urls, i)
  {
  }

  /** The three slot values, as written into a meal's photo, photo2 and photo3. */
  function Slots(urls: seq<string>): (slots: seq<string>)
    ensures |slots| == MaxPhotos
    ensures forall i | 0 <= i < MaxPhotos :: slots[i] == ItemToImageUrl(urls, i)
  {
    [ItemToImageUrl(urls, 0), ItemToImageUrl(urls, 1), ItemToImageUrl(urls, 2)]
  }

  /** The non-empty entries of `xs`, in order. */
  function NonEmpty(xs: seq<string>): (r: seq<string>)
    ensures |r| <= |xs|
    ensures forall u :: u in r <==> u in xs && u != ""
  {
    if |xs| == 0 then []
    else (if xs[0] == "" then [] else [xs[0]]) + NonEmpty(xs[1..])
  }

  /** Writing a list of real URLs into the three slots and reading the non-empty slots back gives the list. */
  lemma SlotsRoundTrip(urls: seq<string>)
    requires |urls| <= MaxPhotos
    requires forall u | u in urls :: u != ""
    ensures NonEmpty(Slots(urls)) == urls
  {
    forall i | 0 <= i < |urls| ensures urls[i] != "" {
      assert urls[i] in urls;
    }
    var s := Slots(urls);
    assert NonEmpty(s[2..]) == (if s[2] == "" then [] else [s[2]]) by {
      assert s[2..][1..] == [];
    }
    assert NonEmpty(s[1..]) == (if s[1] == "" then [] else [s[1]]) + NonEmpty(s[2..]) by {
      assert s[1..][1..] == s[2..];
    }
    if |urls| == 3 {
      assert urls == [urls[0], urls[1], urls[2]];
    } else if |urls| == 2 {
      assert urls == [urls[0], urls[1]];
    } else if |urls| == 1 {
      assert urls == [urls[0]];
    }
  }

  /**
   * The entries of `xs` that `keep` does not protect, in order, each occurrence
   * kept: the files a deletion loop over `xs` removes.
   */
  function Unprotected(xs: seq<string>, keep: seq<string>): (r: seq<string>)
    ensures |r| <= |xs|
    ensures forall u :: u in r <==> u in xs && u !in keep
    ensures forall u :: multiset(r)[u] == if u in keep then 0 else multiset(xs)[u]
  {
    if |xs| == 0 then []
    else
      assert xs == [xs[0]] + xs[1..];
      (if xs[0] in keep then [] else [xs[0]]) + Unprotected(xs[1..], keep)
  }
}
