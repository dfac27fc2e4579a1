/** The book card's poster URL: Drive links become 400-pixel-wide thumbnails. */
module BookCard {
  import opened Wrappers
  import opened DriveThumbnail

  const Size := "w400"

  /** `getDisplayUrl` of the book card. */
  function GetDisplayUrl(url: Option<string>): (r: Option<string>)
    ensures r.None? <==> url.None? || url.value == ""
    ensures url.Some? && url.value != "" && !Contains(url.value, DriveHost) ==> r == url
    ensures url.Some? && Contains(url.value, DriveHost) && FirstGroupFrom(url.value, 0).None? ==> r == url
    ensures url.Some? && Contains(url.value, DriveHost) && FirstGroupFrom(url.value, 0).Some? ==>
      r == Some(Thumbnail(FirstGroupFrom(url.value, 0).value, Size))
  {
    DisplayUrl(url, Size)
  }

  /** A card's display URL is its own display URL. */
  lemma GetDisplayUrlIdempotent(url: Option<string>)
    ensures GetDisplayUrl(GetDisplayUrl(url)) == GetDisplayUrl(url)
  {
    DisplayUrlIdempotent(url, Size);
  }
}
